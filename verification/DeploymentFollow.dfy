/**
 Following a deployment's log until it is terminal (Deployment in internal/logfollow/follow.go): the goroutine
 that prints the stream, and the loop that polls, as steps that interleave in any order.
 */
module DeploymentFollow {
  import opened Wrappers

  /** How the stream ended: cleanly (EOF, or canceled), or not. */
  datatype Ended = Clean | Broken

  /** The goroutine: reading the stream, about to print an event, or gone. */
  datatype Printer = Reading | Printing(id: string) | Gone

  /** What the function returned. */
  datatype Outcome = StreamError | TerminalError | Canceled | CaughtUp | NoCatchUp

  /** Where the loop is. Awaiting is awaitStream, with what follows it. */
  datatype Pc =
    | Selecting
    | CheckingAfterStream
    | CheckingAfterTick
    | Awaiting(next: Next)
    | CatchingUp
    | Returned(outcome: Outcome)

  datatype Next = Finish | ReturnCanceled | ReturnTerminalError

  /**
   channel is errCh, streamCh whether the loop still waits on it, ids the set printedLogIDs holds, and caught what
   catchUp was given. The counts, printed and saidDone record the run.
   */
  datatype State = State(printer: Printer, channel: Option<Ended>, ids: set<string>, streamCh: bool,
                         ctxCanceled: bool, canceled: bool, pc: Pc, caught: Option<set<string>>,
                         sent: nat, received: nat, printed: seq<string>, saidDone: bool, catchUps: nat)

  /** As the function starts; the caller's context may be canceled already. */
  function Start(ctxCanceled: bool): State {
    State(Reading, None, {}, true, ctxCanceled, false, Selecting, None, 0, 0, [], false, 0)
  }

  /** cleanStreamShutdown */
  predicate CleanShutdown(s: State, e: Ended) {
    e == Clean || s.ctxCanceled
  }

  datatype Terminal = NotDone | Done | Failed

  datatype Step =
    | Event(id: string)
    | Print
    | EndStream(ended: Ended)
    | CancelContext
    | StreamChosen
    | ContextChosen
    | TickChosen
    | Check(terminal: Terminal)
    | Await
    | CatchUp

  predicate Enabled(s: State, step: Step) {
    match step
    case Event(_) => s.printer.Reading?
    case Print => s.printer.Printing?
    case EndStream(_) => s.printer.Reading?
    case CancelContext => true
    case StreamChosen => s.pc.Selecting? && s.streamCh && s.channel.Some?
    case ContextChosen => s.pc.Selecting? && s.ctxCanceled
    case TickChosen => s.pc.Selecting?
    case Check(_) => s.pc.CheckingAfterStream? || s.pc.CheckingAfterTick?
    // A receive waits until the goroutine has sent; without a channel it goes on at once.
    case Await => s.pc.Awaiting? && (s.streamCh ==> s.channel.Some?)
    case CatchUp => s.pc.CatchingUp?
  }

  function After(s: State, step: Step, hasCatchUp: bool): State
    requires Enabled(s, step)
  {
    match step
    case Event(id) =>
      s.(ids := if id == "" then s.ids else s.ids + {id}, printer := Printing(id))
    case Print => s.(printed := s.printed + [s.printer.id], printer := Reading)
    case EndStream(ended) => s.(channel := Some(ended), printer := Gone, sent := s.sent + 1)
    case CancelContext => s.(ctxCanceled := true)
    case StreamChosen =>
      var taken := s.(channel := None, received := s.received + 1);
      if !CleanShutdown(s, s.channel.value) then taken.(pc := Returned(StreamError))
      else taken.(streamCh := false, pc := CheckingAfterStream)
    case ContextChosen => s.(canceled := true, pc := Awaiting(ReturnCanceled))
    case TickChosen => s.(pc := CheckingAfterTick)
    case Check(terminal) =>
      (match terminal
       case Failed =>
         if s.pc.CheckingAfterStream? then s.(pc := Returned(TerminalError))
         else s.(canceled := true, pc := Awaiting(ReturnTerminalError))
       case NotDone => s.(pc := Selecting)
       case Done => s.(saidDone := true, canceled := true, pc := Awaiting(Finish)))
    case Await =>
      var ended := if s.streamCh then s.channel.value else Clean;
      var taken := if s.streamCh then s.(channel := None, received := s.received + 1) else s;
      if !CleanShutdown(s, ended) then taken.(pc := Returned(StreamError))
      else
        (match s.pc.next
         case Finish => taken.(pc := if hasCatchUp then CatchingUp else Returned(NoCatchUp))
         case ReturnCanceled => taken.(pc := Returned(Canceled))
         case ReturnTerminalError => taken.(pc := Returned(TerminalError)))
    case CatchUp => s.(catchUps := s.catchUps + 1, caught := Some(s.ids), pc := Returned(CaughtUp))
  }

  /** The steps lead from s to s'. */
  predicate Runs(s: State, steps: seq<Step>, hasCatchUp: bool, s': State)
    decreases |steps|
  {
    if steps == [] then s' == s
    else Enabled(s, steps[0]) && Runs(After(s, steps[0], hasCatchUp), steps[1..], hasCatchUp, s')
  }

  /** The ids of the events printed that have one. */
  function PrintedIds(printed: seq<string>): set<string> {
    set id | id in printed && id != ""
  }

  function Count(b: bool): nat {
    if b then 1 else 0
  }

  /** The stream's result is in the channel or was received, once the goroutine is gone, and was not before. */
  predicate ChannelInv(s: State) {
    && s.sent == Count(s.printer.Gone?) && s.sent == s.received + Count(s.channel.Some?)
    && (s.streamCh && !s.pc.Returned? && !s.pc.CatchingUp? ==> s.received == 0)
    && (!s.streamCh || s.pc.Returned? || s.pc.CatchingUp? || s.pc.CheckingAfterStream? ==> s.received == 1)
    && (s.pc.CheckingAfterStream? ==> !s.streamCh)
  }

  predicate CatchUpInv(s: State) {
    && s.catchUps == Count(s.caught.Some?) && (s.caught.Some? <==> s.pc.Returned? && s.pc.outcome.CaughtUp?)
    && (s.pc.CatchingUp? || (s.pc.Awaiting? && s.pc.next.Finish?) ==> s.saidDone)
    && (s.pc.Returned? && (s.pc.outcome.CaughtUp? || s.pc.outcome.NoCatchUp?) ==> s.saidDone)
    && (s.pc.Awaiting? || s.pc.CatchingUp? ==> s.canceled)
    && (s.caught.Some? ==> s.caught.value == s.ids)
  }

  predicate PrintedInv(s: State) {
    s.ids == PrintedIds(s.printed) + if s.printer.Printing? then PrintedIds([s.printer.id]) else {}
  }

  predicate Inv(s: State) {
    ChannelInv(s) && CatchUpInv(s) && PrintedInv(s)
  }

  lemma StepKeepsChannel(s: State, step: Step, hasCatchUp: bool)
    requires ChannelInv(s) && Enabled(s, step)
    ensures ChannelInv(After(s, step, hasCatchUp))
  {
    hide CleanShutdown;
  }

  lemma StepKeepsCatchUp(s: State, step: Step, hasCatchUp: bool)
    requires ChannelInv(s) && CatchUpInv(s) && Enabled(s, step)
    ensures CatchUpInv(After(s, step, hasCatchUp))
  {
    hide CleanShutdown;
  }

  lemma StepKeepsPrinted(s: State, step: Step, hasCatchUp: bool)
    requires PrintedInv(s) && Enabled(s, step)
    ensures PrintedInv(After(s, step, hasCatchUp))
  {
    hide PrintedIds, CleanShutdown;
    PrintedMore(s.printed, if step.Event? then step.id else if s.printer.Printing? then s.printer.id else "");
  }

  lemma PrintedMore(printed: seq<string>, id: string)
    ensures PrintedIds([]) == {}
    ensures PrintedIds(printed + [id]) == PrintedIds(printed) + PrintedIds([id])
    ensures PrintedIds([id]) == if id == "" then {} else {id}
  {
  }

  lemma {:induction false} RunKeepsInv(s: State, steps: seq<Step>, hasCatchUp: bool, s': State)
    requires Inv(s) && Runs(s, steps, hasCatchUp, s')
    ensures Inv(s')
    decreases |steps|
  {
    if steps != [] {
      StepKeepsChannel(s, steps[0], hasCatchUp);
      StepKeepsCatchUp(s, steps[0], hasCatchUp);
      StepKeepsPrinted(s, steps[0], hasCatchUp);
      hide Enabled, After, ChannelInv, CatchUpInv, PrintedInv;
      RunKeepsInv(After(s, steps[0], hasCatchUp), steps[1..], hasCatchUp, s');
    }
  }

  lemma StartChannel(ctxCanceled: bool)
    ensures ChannelInv(Start(ctxCanceled))
  {
  }

  lemma StartCatchUp(ctxCanceled: bool)
    ensures CatchUpInv(Start(ctxCanceled))
  {
  }

  lemma StartPrinted(ctxCanceled: bool)
    ensures PrintedInv(Start(ctxCanceled))
  {
    hide PrintedIds;
    PrintedMore([], "");
  }

  lemma StartInv(ctxCanceled: bool)
    ensures Inv(Start(ctxCanceled))
  {
    hide ChannelInv, CatchUpInv, PrintedInv;
    StartChannel(ctxCanceled);
    StartCatchUp(ctxCanceled);
    StartPrinted(ctxCanceled);
  }

  lemma Reached(ctxCanceled: bool, steps: seq<Step>, hasCatchUp: bool, s: State)
    requires Runs(Start(ctxCanceled), steps, hasCatchUp, s)
    ensures Inv(s)
  {
    hide Enabled, After, Runs, Start, Inv;
    StartInv(ctxCanceled);
    RunKeepsInv(Start(ctxCanceled), steps, hasCatchUp, s);
  }

  /** However the two interleave, the stream's result is sent once at most and received once at most. */
  lemma ResultSentOnce(ctxCanceled: bool, steps: seq<Step>, hasCatchUp: bool, s: State)
    requires Runs(Start(ctxCanceled), steps, hasCatchUp, s)
    ensures s.received <= s.sent <= 1
  {
    hide Runs;
    Reached(ctxCanceled, steps, hasCatchUp, s);
  }

  /** Where the loop waits for the stream, the goroutine is still there, or what it sent is. */
  lemma NeverWaitsOnFinishedStream(ctxCanceled: bool, steps: seq<Step>, hasCatchUp: bool, s: State)
    requires Runs(Start(ctxCanceled), steps, hasCatchUp, s) && s.pc.Awaiting?
    ensures Enabled(s, Await) || (s.canceled && !s.printer.Gone?)
  {
    hide Runs;
    Reached(ctxCanceled, steps, hasCatchUp, s);
  }

  /** Once the function has returned, the goroutine is gone. */
  lemma NoGoroutineLeft(ctxCanceled: bool, steps: seq<Step>, hasCatchUp: bool, s: State)
    requires Runs(Start(ctxCanceled), steps, hasCatchUp, s) && s.pc.Returned?
    ensures s.printer.Gone?
  {
    hide Runs;
    Reached(ctxCanceled, steps, hasCatchUp, s);
  }

  /**
   catchUp runs once at most, only after the deployment was said to be done, and is given exactly the ids of the
   events printed, all of them.
   */
  lemma CatchUpGetsPrinted(ctxCanceled: bool, steps: seq<Step>, hasCatchUp: bool, s: State)
    requires Runs(Start(ctxCanceled), steps, hasCatchUp, s)
    ensures s.catchUps <= 1 && (s.catchUps == 1 <==> s.caught.Some?)
    ensures s.caught.Some? ==> s.saidDone && s.printer.Gone? && s.caught.value == PrintedIds(s.printed)
  {
    hide Runs;
    Reached(ctxCanceled, steps, hasCatchUp, s);
  }

  // ---------- What the run comes to ----------

  /** The ids of the events read, in order. */
  function EventIds(steps: seq<Step>): seq<string> {
    if steps == [] then []
    else
      var last := steps[|steps| - 1];
      EventIds(steps[..|steps| - 1]) + if last.Event? then [last.id] else []
  }

  /** What was read is printed, all but an event about to be. */
  predicate PrintedTold(past: seq<Step>, s: State) {
    EventIds(past) == s.printed + if s.printer.Printing? then [s.printer.id] else []
  }

  /** The context, and a stream that broke: its result is still to be taken, ended the run, or came when canceled. */
  ghost predicate StreamTold(ctxCanceled: bool, past: seq<Step>, s: State) {
    && (s.ctxCanceled <==> ctxCanceled || CancelContext in past)
    && (s.channel == Some(Broken) ==> EndStream(Broken) in past)
    && (s.pc.Returned? && s.pc.outcome.StreamError? ==> EndStream(Broken) in past)
    && (EndStream(Broken) in past ==>
          s.channel == Some(Broken) || s.ctxCanceled || (s.pc.Returned? && s.pc.outcome.StreamError?))
  }

  /** The last check, and what the loop does about it. */
  ghost predicate CheckTold(past: seq<Step>, hasCatchUp: bool, s: State) {
    && (match s.pc
        case CheckingAfterStream => !(Check(Done) in past || Check(Failed) in past)
        case CheckingAfterTick => !(Check(Done) in past || Check(Failed) in past)
        case Selecting => !(Check(Done) in past || Check(Failed) in past)
        case CatchingUp => Check(Done) in past && Check(Failed) !in past && hasCatchUp
        case Awaiting(Finish) => Check(Done) in past && Check(Failed) !in past
        case Awaiting(ReturnTerminalError) => Check(Failed) in past && Check(Done) !in past
        case Awaiting(ReturnCanceled) => s.ctxCanceled && !(Check(Done) in past || Check(Failed) in past)
        case Returned(StreamError) => true
        case Returned(TerminalError) => Check(Failed) in past && Check(Done) !in past
        case Returned(Canceled) => s.ctxCanceled && !(Check(Done) in past || Check(Failed) in past)
        case Returned(CaughtUp) => Check(Done) in past && Check(Failed) !in past && hasCatchUp
        case Returned(NoCatchUp) => Check(Done) in past && Check(Failed) !in past && !hasCatchUp)
  }

  ghost predicate Told(ctxCanceled: bool, past: seq<Step>, hasCatchUp: bool, s: State) {
    PrintedTold(past, s) && StreamTold(ctxCanceled, past, s) && CheckTold(past, hasCatchUp, s)
  }

  lemma PastAnd(past: seq<Step>, step: Step, x: Step)
    ensures x in past + [step] <==> x in past || x == step
  {
  }

  lemma EventIdsSnoc(past: seq<Step>, step: Step)
    ensures EventIds(past + [step]) == EventIds(past) + if step.Event? then [step.id] else []
  {
    assert (past + [step])[..|past|] == past;
  }

  lemma StepTellsPrinted(past: seq<Step>, s: State, step: Step, hasCatchUp: bool)
    requires PrintedTold(past, s) && Enabled(s, step)
    ensures PrintedTold(past + [step], After(s, step, hasCatchUp))
  {
    hide CleanShutdown, EventIds;
    EventIdsSnoc(past, step);
  }

  lemma StepTellsStream(ctxCanceled: bool, past: seq<Step>, s: State, step: Step, hasCatchUp: bool)
    requires ChannelInv(s) && StreamTold(ctxCanceled, past, s) && Enabled(s, step)
    ensures StreamTold(ctxCanceled, past + [step], After(s, step, hasCatchUp))
  {
    PastAnd(past, step, CancelContext);
    PastAnd(past, step, EndStream(Broken));
  }

  lemma StepTellsCheck(past: seq<Step>, s: State, step: Step, hasCatchUp: bool)
    requires CheckTold(past, hasCatchUp, s) && Enabled(s, step)
    ensures CheckTold(past + [step], hasCatchUp, After(s, step, hasCatchUp))
  {
    hide CleanShutdown;
    PastAnd(past, step, Check(Done));
    PastAnd(past, step, Check(Failed));
  }

  lemma StepTells(ctxCanceled: bool, past: seq<Step>, s: State, step: Step, hasCatchUp: bool)
    requires Inv(s) && Told(ctxCanceled, past, hasCatchUp, s) && Enabled(s, step)
    ensures var next := After(s, step, hasCatchUp); Inv(next) && Told(ctxCanceled, past + [step], hasCatchUp, next)
  {
    hide Enabled, After, ChannelInv, CatchUpInv, PrintedInv, PrintedTold, StreamTold, CheckTold;
    StepKeepsChannel(s, step, hasCatchUp);
    StepKeepsCatchUp(s, step, hasCatchUp);
    StepKeepsPrinted(s, step, hasCatchUp);
    StepTellsPrinted(past, s, step, hasCatchUp);
    StepTellsStream(ctxCanceled, past, s, step, hasCatchUp);
    StepTellsCheck(past, s, step, hasCatchUp);
  }

  lemma {:induction false} RunTells(ctxCanceled: bool, past: seq<Step>, s: State, steps: seq<Step>, hasCatchUp: bool,
                                    s': State)
    requires Inv(s) && Told(ctxCanceled, past, hasCatchUp, s) && Runs(s, steps, hasCatchUp, s')
    ensures Told(ctxCanceled, past + steps, hasCatchUp, s')
    decreases |steps|
  {
    if steps == [] {
      assert past + steps == past;
    } else {
      hide Enabled, After, Inv, Told;
      RunsFirst(s, steps, hasCatchUp, s');
      hide Runs;
      var step, rest := steps[0], steps[1..];
      StepTells(ctxCanceled, past, s, step, hasCatchUp);
      RunTells(ctxCanceled, past + [step], After(s, step, hasCatchUp), rest, hasCatchUp, s');
      Regrouped(past, steps);
    }
  }

  lemma RunsFirst(s: State, steps: seq<Step>, hasCatchUp: bool, s': State)
    requires Runs(s, steps, hasCatchUp, s') && steps != []
    ensures Enabled(s, steps[0]) && Runs(After(s, steps[0], hasCatchUp), steps[1..], hasCatchUp, s')
  {
  }

  lemma Regrouped(past: seq<Step>, steps: seq<Step>)
    requires steps != []
    ensures past + [steps[0]] + steps[1..] == past + steps
  {
  }

  lemma StartTells(ctxCanceled: bool, hasCatchUp: bool)
    ensures Told(ctxCanceled, [], hasCatchUp, Start(ctxCanceled))
  {
  }

  /**
   However the steps interleave, the function returns an error of the stream only when that broke, and does when it
   broke and the context was not canceled. But for that it returns the error of the check if there was one; it catches
   up, or has no catchUp to call, if and only if the check said done; and otherwise it was canceled. All that was read
   by then is printed, in order.
   */
  lemma OutcomeMeans(ctxCanceled: bool, steps: seq<Step>, hasCatchUp: bool, s: State)
    requires Runs(Start(ctxCanceled), steps, hasCatchUp, s) && s.pc.Returned?
    ensures s.printed == EventIds(steps)
    ensures var o, canceled := s.pc.outcome, ctxCanceled || CancelContext in steps;
            && (o == StreamError ==> EndStream(Broken) in steps)
            && (EndStream(Broken) in steps && !canceled ==> o == StreamError)
            && (o != StreamError ==>
                  && (o == TerminalError <==> Check(Failed) in steps)
                  && (o == CaughtUp <==> Check(Done) in steps && hasCatchUp)
                  && (o == NoCatchUp <==> Check(Done) in steps && !hasCatchUp)
                  && (o == Canceled ==> canceled))
  {
    hide Enabled, After, Runs, Inv;
    StartTells(ctxCanceled, hasCatchUp);
    StartInv(ctxCanceled);
    RunTells(ctxCanceled, [], Start(ctxCanceled), steps, hasCatchUp, s);
    assert [] + steps == steps;
    Reached(ctxCanceled, steps, hasCatchUp, s);
    NoGoroutineLeft(ctxCanceled, steps, hasCatchUp, s);
    Finished(s);
  }

  lemma Finished(s: State)
    requires Inv(s) && s.pc.Returned?
    ensures s.printer.Gone? && s.channel.None?
  {
  }

  /** catchUp is called if and only if that is what was returned: once the deployment is done, when there is one. */
  lemma CatchUpRuns(ctxCanceled: bool, steps: seq<Step>, hasCatchUp: bool, s: State)
    requires Runs(Start(ctxCanceled), steps, hasCatchUp, s) && s.pc.Returned? && hasCatchUp
    requires Check(Done) in steps && s.pc.outcome != StreamError
    ensures s.catchUps == 1 && s.caught == Some(set id | id in EventIds(steps) && id != "")
  {
    hide Enabled, After, Runs, EventIds;
    OutcomeMeans(ctxCanceled, steps, hasCatchUp, s);
    Reached(ctxCanceled, steps, hasCatchUp, s);
    CatchUpGetsPrinted(ctxCanceled, steps, hasCatchUp, s);
  }
}
