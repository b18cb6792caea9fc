/** Where a push goes after git's URL rewriting (rewritePushURL in internal/localgit/localgit.go). */
module PushUrl {
  import opened Strings
  import opened Wrappers

  const URL := "url."
  const PUSH := ".pushinsteadof"
  const FETCH := ".insteadof"

  predicate HasPrefix(s: string, prefix: string) {
    prefix <= s
  }

  predicate HasSuffix(s: string, suffix: string) {
    |suffix| <= |s| && s[|s| - |suffix|..] == suffix
  }

  /** A rule puts base in the place of prefix. */
  datatype Rule = Rule(push: bool, prefix: string, base: string)

  /** A record of git config -z: a key, a newline and the prefix; None for any other. */
  function RuleOf(record: string): Option<Rule> {
    var i := IndexOf(record, '\n');
    if i == |record| || !HasPrefix(record[..i], URL) then None
    else
      var base := record[..i][|URL|..];
      if HasSuffix(base, PUSH) then Some(Rule(true, record[i + 1..], base[..|base| - |PUSH|]))
      else if HasSuffix(base, FETCH) then Some(Rule(false, record[i + 1..], base[..|base| - |FETCH|]))
      else None
  }

  function Record(rule: Rule): string {
    URL + (rule.base + if rule.push then PUSH else FETCH) + "\n" + rule.prefix
  }

  lemma FetchIsNotPush(base: string)
    ensures !HasSuffix(base + FETCH, PUSH) && HasSuffix(base + FETCH, FETCH)
    ensures (base + FETCH)[..|base + FETCH| - |FETCH|] == base
  {
    var key := base + FETCH;
    assert key[|key| - 10] == FETCH[0] == '.' && PUSH[4] == 'h';
    if |PUSH| <= |key| {
      assert key[|key| - |PUSH|..][4] == key[|key| - 10];
    }
  }

  lemma PushIsPush(base: string)
    ensures HasSuffix(base + PUSH, PUSH) && (base + PUSH)[..|base + PUSH| - |PUSH|] == base
  {
  }

  /** A key and its value, cut at the newline between. */
  lemma CutsAtNewline(url: string, named: string, prefix: string)
    requires '\n' !in url && '\n' !in named
    ensures var record := url + named + "\n" + prefix; var i := IndexOf(record, '\n');
            && i == |url + named| < |record| && record[..i] == url + named && record[i + 1..] == prefix
            && HasPrefix(url + named, url) && (url + named)[|url|..] == named
  {
    var key := url + named;
    IndexIn(key, '\n', prefix);
    assert key[..|key|] == key && url + named + "\n" + prefix == key + ['\n'] + prefix;
    assert (key + ['\n'] + prefix)[..|key|] == key && (key + ['\n'] + prefix)[|key| + 1..] == prefix;
  }

  /** A record reads back as the rule it was made of, whatever dots, colons and spaces the base has. */
  lemma RecordReadsBack(rule: Rule)
    requires '\n' !in rule.base
    ensures RuleOf(Record(rule)) == Some(rule)
  {
    var suffix := if rule.push then PUSH else FETCH;
    assert '\n' !in URL && '\n' !in rule.base + suffix;
    FetchIsNotPush(rule.base);
    PushIsPush(rule.base);
    CutsAtNewline(URL, rule.base + suffix, rule.prefix);
    hide HasSuffix, HasPrefix, IndexOf;
  }

  /** And the records are nothing else: any other is no rule. */
  lemma RuleMeans(record: string, rule: Rule)
    ensures RuleOf(record) == Some(rule)
       <==> && '\n' !in rule.base
            && record
               == "url." + (rule.base + if rule.push then ".pushinsteadof" else ".insteadof") + "\n" + rule.prefix
  {
    if '\n' !in rule.base && record == Record(rule) {
      RecordReadsBack(rule);
    }
    if RuleOf(record) == Some(rule) {
      RuleWritten(record, rule);
    }
    hide RuleOf;
  }

  lemma RuleWritten(record: string, rule: Rule)
    requires RuleOf(record) == Some(rule)
    ensures '\n' !in rule.base && record == Record(rule)
  {
    var i := IndexOf(record, '\n');
    var key := record[..i];
    assert record == key + "\n" + record[i + 1..];
    assert key == URL + key[|URL|..];
    var named := key[|URL|..];
    var suffix := if rule.push then PUSH else FETCH;
    hide IndexOf;
    assert named == named[..|named| - |suffix|] + suffix;
    assert forall c <- rule.base :: c in key;
  }

  /** The rules of the configuration, in order. */
  function Rules(records: seq<string>): seq<Rule> {
    if records == [] then []
    else
      Rules(records[..|records| - 1])
      + match RuleOf(records[|records| - 1])
        case None => []
        case Some(rule) => [rule]
  }

  lemma {:induction false} RulesMean(a: seq<string>, b: seq<string>)
    ensures Rules(a + b) == Rules(a) + Rules(b)
  {
    if b == [] {
      assert a + b == a && Rules([]) == [] && Rules(a) + [] == Rules(a);
    } else {
      hide RuleOf, Rules;
      var n := |b| - 1;
      RulesMean(a, b[..n]);
      assert a + b == a + b[..n] + [b[n]] && b == b[..n] + [b[n]];
      OneRule(a + b[..n], b[n]);
      OneRule(b[..n], b[n]);
    }
  }

  /** A record adds its rule, if it is one. */
  lemma OneRule(records: seq<string>, record: string)
    ensures Rules(records + [record])
         == Rules(records) + match RuleOf(record)
                             case None => []
                             case Some(rule) => [rule]
  {
    assert (records + [record])[..|records|] == records;
  }

  /** The rule is of the kind asked for, and its prefix is one of value. */
  predicate Applies(rule: Rule, push: bool, value: string) {
    rule.push == push && HasPrefix(value, rule.prefix)
  }

  /** Rule i has the longest prefix of those that apply, and is the first with it. */
  predicate Wins(rules: seq<Rule>, push: bool, value: string, i: nat) {
    && i < |rules| && Applies(rules[i], push, value)
    && forall j | 0 <= j < |rules| && Applies(rules[j], push, value) ::
         |rules[j].prefix| < |rules[i].prefix| || (|rules[j].prefix| == |rules[i].prefix| && i <= j)
  }

  /** value with the prefix of the winning rule replaced. */
  ghost predicate Rewrites(rules: seq<Rule>, push: bool, value: string, rewritten: string) {
    exists i: nat :: Wins(rules, push, value, i) && rewritten == rules[i].base + value[|rules[i].prefix|..]
  }

  ghost predicate AnyApplies(rules: seq<Rule>, push: bool, value: string) {
    exists rule <- rules :: Applies(rule, push, value)
  }

  /** A push follows the winning pushInsteadOf rule; when none applies, the winning insteadOf rule; else no rule. */
  ghost predicate Follows(rules: seq<Rule>, value: string, rewritten: string) {
    if AnyApplies(rules, true, value) then Rewrites(rules, true, value, rewritten)
    else if AnyApplies(rules, false, value) then Rewrites(rules, false, value, rewritten)
    else rewritten == ""
  }

  /**
   Of the rules whose prefix value starts with, pushInsteadOf ones or when there are none insteadOf ones, the earliest
   of the longest prefix puts its base in the place of that; without any, nothing is rewritten.
   */
  lemma FollowsMeans(rules: seq<Rule>, value: string, rewritten: string)
    ensures Follows(rules, value, rewritten)
       <==> var push := exists i | 0 <= i < |rules| :: rules[i].push && rules[i].prefix <= value;
            if exists i | 0 <= i < |rules| :: rules[i].push == push && rules[i].prefix <= value then
              exists i | 0 <= i < |rules| ::
                && rules[i].push == push && rules[i].prefix <= value
                && rewritten == rules[i].base + value[|rules[i].prefix|..]
                && forall j | 0 <= j < |rules| && rules[j].push == push && rules[j].prefix <= value ::
                     |rules[j].prefix| < |rules[i].prefix| || (|rules[j].prefix| == |rules[i].prefix| && i <= j)
            else rewritten == ""
  {
    AppliesMeans(rules, true, value);
    AppliesMeans(rules, false, value);
    hide AnyApplies;
    forall push, i | 0 <= i < |rules|
      ensures Wins(rules, push, value, i)
         <==> && rules[i].push == push && rules[i].prefix <= value
              && forall j | 0 <= j < |rules| && rules[j].push == push && rules[j].prefix <= value ::
                   |rules[j].prefix| < |rules[i].prefix| || (|rules[j].prefix| == |rules[i].prefix| && i <= j)
    {
    }
    hide Wins;
  }

  lemma AppliesMeans(rules: seq<Rule>, push: bool, value: string)
    ensures AnyApplies(rules, push, value)
       <==> exists i | 0 <= i < |rules| :: rules[i].push == push && rules[i].prefix <= value
  {
    if i :| 0 <= i < |rules| && rules[i].push == push && rules[i].prefix <= value {
      assert Applies(rules[i], push, value);
    }
  }

  lemma OneWinner(rules: seq<Rule>, push: bool, value: string, i: nat, j: nat)
    requires Wins(rules, push, value, i) && Wins(rules, push, value, j)
    ensures i == j
  {
  }

  /** So the configuration decides where a push goes, and the order a map is iterated in does not. */
  lemma OneDestination(rules: seq<Rule>, value: string, a: string, b: string)
    requires Follows(rules, value, a) && Follows(rules, value, b)
    ensures a == b
  {
    hide Wins;
    forall push, i: nat, j: nat | Wins(rules, push, value, i) && Wins(rules, push, value, j)
      ensures i == j
    {
      OneWinner(rules, push, value, i, j);
    }
  }

  // ---------- As the code does it ----------

  /** m has the base of the first rule of its kind for each prefix. */
  ghost predicate Firsts(rules: seq<Rule>, push: bool, m: map<string, string>) {
    && (forall i | 0 <= i < |rules| && rules[i].push == push :: rules[i].prefix in m)
    && forall p <- m :: exists i | 0 <= i < |rules| :: IsFirst(rules, push, p, i) && rules[i].base == m[p]
  }

  predicate IsFirst(rules: seq<Rule>, push: bool, prefix: string, i: nat)
    requires i < |rules|
  {
    && rules[i].push == push && rules[i].prefix == prefix
    && forall j | 0 <= j < i && rules[j].push == push :: rules[j].prefix != prefix
  }

  function Added(m: map<string, string>, rule: Rule, push: bool): map<string, string> {
    if rule.push == push && rule.prefix !in m then m[rule.prefix := rule.base] else m
  }

  lemma AddRule(rules: seq<Rule>, rule: Rule, push: bool, m: map<string, string>)
    requires Firsts(rules, push, m)
    ensures Firsts(rules + [rule], push, Added(m, rule, push))
  {
    var more := rules + [rule];
    forall p | p in Added(m, rule, push)
      ensures exists i | 0 <= i < |more| :: IsFirst(more, push, p, i) && more[i].base == Added(m, rule, push)[p]
    {
      if p in m {
        var i :| 0 <= i < |rules| && IsFirst(rules, push, p, i) && rules[i].base == m[p];
        assert IsFirst(more, push, p, i);
      } else {
        assert IsFirst(more, push, p, |rules|);
      }
    }
  }

  /** The loop over the records. */
  method Collect(records: seq<string>) returns (push: map<string, string>, fetch: map<string, string>)
    ensures Firsts(Rules(records), true, push) && Firsts(Rules(records), false, fetch)
  {
    hide Firsts;
    push, fetch := map[], map[];
    assert records[..0] == [];
    NoRules();
    for i := 0 to |records|
      invariant Firsts(Rules(records[..i]), true, push) && Firsts(Rules(records[..i]), false, fetch)
    {
      assert records[..i + 1][..i] == records[..i];
      var rule := RuleOf(records[i]);
      if rule.None? {
        assert Rules(records[..i]) + [] == Rules(records[..i]);
        continue;
      }
      AddRule(Rules(records[..i]), rule.value, true, push);
      AddRule(Rules(records[..i]), rule.value, false, fetch);
      if rule.value.push {
        if rule.value.prefix !in push {
          push := push[rule.value.prefix := rule.value.base];
        }
      } else if rule.value.prefix !in fetch {
        fetch := fetch[rule.value.prefix := rule.value.base];
      }
    }
    assert records[..|records|] == records;
  }

  lemma NoRules()
    ensures Firsts([], true, map[]) && Firsts([], false, map[])
  {
  }

  /** p is the longest prefix of value m has. */
  predicate Longest(m: map<string, string>, value: string, p: string) {
    p in m && HasPrefix(value, p) && forall other <- m | HasPrefix(value, other) :: |other| <= |p|
  }

  /** longestPrefixRewrite, in any order of the map. */
  method LongestPrefixRewrite(value: string, rules: map<string, string>) returns (rewritten: string, matched: bool)
    ensures matched <==> exists p <- rules :: HasPrefix(value, p)
    ensures matched ==> exists p :: Longest(rules, value, p) && rewritten == rules[p] + value[|p|..]
    ensures !matched ==> rewritten == ""
  {
    var longest := -1;
    rewritten := "";
    ghost var best := "";
    var rest := rules.Keys;
    while rest != {}
      invariant rest <= rules.Keys && longest >= -1
      invariant longest == -1 ==> rewritten == "" && forall p <- rules | p !in rest :: !HasPrefix(value, p)
      invariant longest >= 0 ==>
                  && best in rules && HasPrefix(value, best) && |best| == longest
                  && rewritten == rules[best] + value[|best|..]
                  && forall p <- rules | p !in rest && HasPrefix(value, p) :: |p| <= longest
      decreases rest
    {
      var prefix :| prefix in rest;
      rest := rest - {prefix};
      if |prefix| > longest && HasPrefix(value, prefix) {
        longest, rewritten, best := |prefix|, rules[prefix] + value[|prefix|..], prefix;
      }
    }
    matched := longest >= 0;
    assert matched ==> Longest(rules, value, best);
  }

  /** The longest prefix in the map is that of the winning rule. */
  lemma LongestWins(rules: seq<Rule>, push: bool, m: map<string, string>, value: string, p: string)
    requires Firsts(rules, push, m) && Longest(m, value, p)
    ensures AnyApplies(rules, push, value) && Rewrites(rules, push, value, m[p] + value[|p|..])
  {
    var i :| 0 <= i < |rules| && IsFirst(rules, push, p, i) && rules[i].base == m[p];
    assert Applies(rules[i], push, value);
    forall j | 0 <= j < |rules| && Applies(rules[j], push, value)
      ensures |rules[j].prefix| < |p| || (|rules[j].prefix| == |p| && i <= j)
    {
      assert rules[j].prefix == value[..|rules[j].prefix|] && p == value[..|p|];
    }
    assert Wins(rules, push, value, i);
  }

  lemma NoneApplies(rules: seq<Rule>, push: bool, m: map<string, string>, value: string)
    requires Firsts(rules, push, m) && forall p <- m :: !HasPrefix(value, p)
    ensures !AnyApplies(rules, push, value)
  {
  }

  method RewritePushURL(records: seq<string>, value: string) returns (rewritten: string)
    ensures Follows(Rules(records), value, rewritten)
  {
    hide Firsts, AnyApplies, Rewrites;
    var push, fetch := Collect(records);
    var matched;
    rewritten, matched := LongestPrefixRewrite(value, push);
    if matched {
      ghost var p :| Longest(push, value, p) && rewritten == push[p] + value[|p|..];
      LongestWins(Rules(records), true, push, value, p);
      return;
    }
    NoneApplies(Rules(records), true, push, value);
    rewritten, matched := LongestPrefixRewrite(value, fetch);
    if matched {
      ghost var p :| Longest(fetch, value, p) && rewritten == fetch[p] + value[|p|..];
      LongestWins(Rules(records), false, fetch, value, p);
    } else {
      NoneApplies(Rules(records), false, fetch, value);
    }
  }
}
