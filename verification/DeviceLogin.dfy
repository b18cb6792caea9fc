/**
 Polling for a device login (devicePoller and waitForDeviceToken in internal/auth/auth.go), per section 3.5 of
 RFC 8628. Times are in seconds; what the server answers is given.
 */
module DeviceLogin {
  import opened Wrappers

  const MAX_POLL_FAILURES := 3
  const MAX_EXCHANGE_ATTEMPTS := 3
  const SLOW_DOWN_STEP := 5
  const DEFAULT_INTERVAL := 5

  /** What a poll gets: no answer, or one with a token or an OAuth error code. */
  datatype Answer = NoAnswer | Answered(accessToken: string, error: string)

  /** What the exchange of the token gets: a platform token, or a failure, with status 0 when there was no answer. */
  datatype Exchange = Exchanged(token: string) | Refused(status: int)

  datatype Login = LoggedIn(token: string) | ExchangeFailed | PollFailed | Denied(code: string)

  /** What a poll that ends the login ends it with; the exchange is what it comes to once there is a token. */
  function Ends(answers: seq<Answer>, i: nat): bool
    requires i < |answers|
  {
    match answers[i]
    case NoAnswer =>
      i + 1 >= MAX_POLL_FAILURES && forall j | i + 1 - MAX_POLL_FAILURES <= j <= i :: answers[j].NoAnswer?
    case Answered(token, error) => token != "" || error !in {"", "authorization_pending", "slow_down"}
  }

  /** How many of the answers tell the client to slow down. */
  function SlowDowns(answers: seq<Answer>): nat {
    if answers == [] then 0
    else
      var last := answers[|answers| - 1];
      SlowDowns(answers[..|answers| - 1])
      + if last.Answered? && last.accessToken == "" && last.error == "slow_down" then 1 else 0
  }

  /** How many of the last answers are missing, in a row. */
  function Failures(answers: seq<Answer>): nat {
    if answers == [] || answers[|answers| - 1].Answered? then 0 else 1 + Failures(answers[..|answers| - 1])
  }

  // ---------- The exchange ----------

  /** A network error or a server error is tried again, twice. */
  predicate Retried(e: Exchange) {
    e.Refused? && (e.status == 0 || e.status >= 500)
  }

  /** exchange: of the results its attempts would get, the first that is not tried again, or the third. */
  method ExchangeToken(results: seq<Exchange>) returns (e: Exchange, attempts: nat)
    requires |results| >= MAX_EXCHANGE_ATTEMPTS
    ensures 1 <= attempts <= MAX_EXCHANGE_ATTEMPTS && e == results[attempts - 1]
    ensures forall j | 0 <= j < attempts - 1 :: Retried(results[j])
    ensures attempts < MAX_EXCHANGE_ATTEMPTS ==> !Retried(e)
  {
    attempts := 1;
    while true
      invariant 1 <= attempts <= MAX_EXCHANGE_ATTEMPTS && forall j | 0 <= j < attempts - 1 :: Retried(results[j])
      decreases MAX_EXCHANGE_ATTEMPTS - attempts
    {
      e := results[attempts - 1];
      var status := if e.Refused? then e.status else 0;
      if e.Exchanged? || attempts == MAX_EXCHANGE_ATTEMPTS || (status != 0 && status < 500) {
        return;
      }
      attempts := attempts + 1;
    }
  }

  /** The attempt whose result exchange returns. */
  function Decisive(results: seq<Exchange>): (k: nat)
    requires |results| >= MAX_EXCHANGE_ATTEMPTS
    ensures k < MAX_EXCHANGE_ATTEMPTS
  {
    if !Retried(results[0]) then 0 else if !Retried(results[1]) then 1 else 2
  }

  // ---------- The poller ----------

  class DevicePoller {
    var failures: nat
    var interval: int
    // The ticker's period.
    var period: int

    constructor (interval: int)
      ensures failures == 0 && this.interval == (if interval <= 0 then DEFAULT_INTERVAL else interval)
      ensures period == this.interval
    {
      failures := 0;
      this.interval := if interval <= 0 then DEFAULT_INTERVAL else interval;
      period := if interval <= 0 then DEFAULT_INTERVAL else interval;
    }

    /** The poller's state after the answers seen. */
    predicate Polled(start: int, seen: seq<Answer>)
      reads this
    {
      failures == Failures(seen) && interval == start + SLOW_DOWN_STEP * SlowDowns(seen) && period == interval
    }

    /** poll: None when polling goes on. */
    method Poll(answer: Answer, exchange: seq<Exchange>, ghost start: int, ghost seen: seq<Answer>)
      returns (login: Option<Login>)
      requires Polled(start, seen) && |exchange| >= MAX_EXCHANGE_ATTEMPTS
      modifies this
      ensures login.None? ==> Polled(start, seen + [answer])
      ensures login == Outcome(seen + [answer], exchange)
    {
      assert (seen + [answer])[..|seen|] == seen;
      if answer.NoAnswer? {
        failures := failures + 1;
        if failures >= MAX_POLL_FAILURES {
          return Some(PollFailed);
        }
        return None;
      }
      failures := 0;
      if answer.accessToken != "" {
        var e, attempts := ExchangeToken(exchange);
        return Some(if e.Exchanged? then LoggedIn(e.token) else ExchangeFailed);
      }
      if answer.error == "" || answer.error == "authorization_pending" {
        return None;
      }
      if answer.error == "slow_down" {
        interval := interval + SLOW_DOWN_STEP;
        period := interval;
        return None;
      }
      login := Some(Denied(answer.error));
    }
  }

  /** What the last of the answers ends the login with, if it does. */
  function Outcome(seen: seq<Answer>, exchange: seq<Exchange>): Option<Login>
    requires seen != [] && |exchange| >= MAX_EXCHANGE_ATTEMPTS
  {
    var last := seen[|seen| - 1];
    if last.NoAnswer? then if Failures(seen) >= MAX_POLL_FAILURES then Some(PollFailed) else None
    else if last.accessToken != "" then
      var e := exchange[Decisive(exchange)];
      Some(if e.Exchanged? then LoggedIn(e.token) else ExchangeFailed)
    else if last.error in {"", "authorization_pending", "slow_down"} then None
    else Some(Denied(last.error))
  }

  /** Three polls in a row without an answer are when the failures reach three. */
  lemma {:induction false} FailuresInARow(answers: seq<Answer>)
    ensures Failures(answers) <= |answers|
    ensures forall j | |answers| - Failures(answers) <= j < |answers| :: answers[j].NoAnswer?
    ensures Failures(answers) < |answers| ==> answers[|answers| - 1 - Failures(answers)].Answered?
  {
    if answers != [] && answers[|answers| - 1].NoAnswer? {
      FailuresInARow(answers[..|answers| - 1]);
    }
  }

  /** The exchange gives token: after failures that are tried again, of three attempts at most. */
  predicate Gives(exchange: seq<Exchange>, token: string)
    requires |exchange| >= MAX_EXCHANGE_ATTEMPTS
  {
    exists k | 0 <= k < 3 ::
      && exchange[k] == Exchanged(token)
      && forall j | 0 <= j < k :: exchange[j].Refused? && (exchange[j].status == 0 || exchange[j].status >= 500)
  }

  /**
   What a login ends with: the token that the exchange gives for the last answer's, or a failure when it gives none; the
   error of an answer without a token that says more than to wait; and a failure with the third answer missing in a row.
   */
  lemma OutcomeMeans(seen: seq<Answer>, exchange: seq<Exchange>, token: string, code: string)
    requires seen != [] && |exchange| >= MAX_EXCHANGE_ATTEMPTS
    ensures var last := seen[|seen| - 1];
            && (Outcome(seen, exchange) == Some(LoggedIn(token))
                <==> last.Answered? && last.accessToken != "" && Gives(exchange, token))
            && (Outcome(seen, exchange) == Some(ExchangeFailed)
                <==> last.Answered? && last.accessToken != "" && forall t :: !Gives(exchange, t))
            && (Outcome(seen, exchange) == Some(Denied(code))
                <==> last == Answered("", code) && code !in {"", "authorization_pending", "slow_down"})
            && (Outcome(seen, exchange) == Some(PollFailed)
                <==> |seen| >= 3 && forall j | |seen| - 3 <= j < |seen| :: seen[j].NoAnswer?)
  {
    FailuresInARow(seen);
    hide Failures;
    GivesOne(exchange);
  }

  lemma GivesOne(exchange: seq<Exchange>)
    requires |exchange| >= MAX_EXCHANGE_ATTEMPTS
    ensures forall t :: Gives(exchange, t) <==> exchange[Decisive(exchange)] == Exchanged(t)
  {
  }

  /** So many of the answers are there that say slow_down, and have no token. */
  lemma {:induction false} SlowDownsMean(answers: seq<Answer>)
    ensures SlowDowns(answers) == |(set i | 0 <= i < |answers| && answers[i] == Answered("", "slow_down"))|
  {
    var told := set i | 0 <= i < |answers| && answers[i] == Answered("", "slow_down");
    if answers != [] {
      var n := |answers| - 1;
      SlowDownsMean(answers[..n]);
      var before := set i | 0 <= i < n && answers[..n][i] == Answered("", "slow_down");
      assert told == before + if answers[n] == Answered("", "slow_down") then {n} else {};
    } else {
      assert told == {};
    }
  }

  /** An answer ends the login exactly as RFC 8628 and the retry limit say. */
  lemma EndsWhenOutcome(answers: seq<Answer>, i: nat, exchange: seq<Exchange>)
    requires i < |answers| && |exchange| >= MAX_EXCHANGE_ATTEMPTS
    ensures Ends(answers, i) <==> Outcome(answers[..i + 1], exchange).Some?
    ensures Ends(answers, i)
       <==> if answers[i].NoAnswer? then i >= 2 && answers[i - 1].NoAnswer? && answers[i - 2].NoAnswer?
            else answers[i].accessToken != "" || answers[i].error !in {"", "authorization_pending", "slow_down"}
  {
    FailuresInARow(answers[..i + 1]);
  }

  lemma NothingSeen()
    ensures Failures([]) == 0 == SlowDowns([])
  {
  }

  /**
   The loop of waitForDeviceToken over the polls made before the code expires: answers is what they get. The
   waits before each poll are given back too: the poller's period, but none before the first with pollNow.
   */
  method Wait(start: int, pollNow: bool, answers: seq<Answer>, exchange: seq<Exchange>)
    returns (login: Option<Login>, polls: nat, waits: seq<int>)
    requires |exchange| >= MAX_EXCHANGE_ATTEMPTS
    ensures polls <= |answers| && |waits| == polls && forall i | 0 <= i < polls - 1 :: !Ends(answers, i)
    ensures login.Some? ==> polls > 0 && Ends(answers, polls - 1) && login == Outcome(answers[..polls], exchange)
    ensures login.None? ==> polls == |answers| && forall i | 0 <= i < polls :: !Ends(answers, i)
    ensures forall i | 0 <= i < polls ::
              waits[i] == if pollNow && i == 0 then 0
                          else (if start <= 0 then 5 else start) + 5 * SlowDowns(answers[..i])
  {
    hide Ends, SlowDowns, Outcome, Failures;
    var poller := new DevicePoller(start);
    polls, waits := 0, [];
    ghost var first := poller.interval;
    assert answers[..0] == [];
    NothingSeen();
    while polls < |answers|
      invariant polls <= |answers| && |waits| == polls && fresh(poller)
      invariant poller.Polled(first, answers[..polls])
      invariant forall i | 0 <= i < polls :: !Ends(answers, i)
      invariant forall i | 0 <= i < polls ::
                  waits[i] == if pollNow && i == 0 then 0 else first + SLOW_DOWN_STEP * SlowDowns(answers[..i])
    {
      waits := waits + [if pollNow && polls == 0 then 0 else poller.period];
      assert answers[..polls + 1] == answers[..polls] + [answers[polls]];
      login := poller.Poll(answers[polls], exchange, first, answers[..polls]);
      EndsWhenOutcome(answers, polls, exchange);
      polls := polls + 1;
      if login.Some? {
        return;
      }
    }
    login := None;
  }
}
