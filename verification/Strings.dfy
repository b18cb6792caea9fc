/** Text handling of the Go standard library: strings.Split, Join, Trim and Cut, and the order of strings. */
module Strings {
  /** unicode.IsSpace. */
  predicate IsSpace(c: char) {
    || c in {' ', '\t', '\n', '\r'} || '\U{2000}' <= c <= '\U{200a}'
    || c as int in {0x0b, 0x0c, 0x85, 0xa0, 0x1680, 0x2028, 0x2029, 0x202f, 0x205f, 0x3000}
  }

  /** strings.Split at one character. */
  function Split(s: string, sep: char): (parts: seq<string>)
    ensures parts != [] && forall part <- parts :: sep !in part
  {
    if s == "" then [""]
    else
      var rest := Split(s[1..], sep);
      if s[0] == sep then [""] + rest else [[s[0]] + rest[0]] + rest[1..]
  }

  /** strings.Join. */
  function Join(parts: seq<string>, sep: string): string {
    if parts == [] then "" else if |parts| == 1 then parts[0] else parts[0] + sep + Join(parts[1..], sep)
  }

  lemma {:induction false} SplitJoins(s: string, sep: char)
    ensures Join(Split(s, sep), [sep]) == s
  {
    if s != "" {
      SplitJoins(s[1..], sep);
      var rest := Split(s[1..], sep);
      if s[0] == sep {
        assert ([""] + rest)[1..] == rest;
      } else {
        assert ([[s[0]] + rest[0]] + rest[1..])[1..] == rest[1..];
        assert s == [s[0]] + s[1..];
      }
    }
  }

  lemma {:induction false} JoinSplits(parts: seq<string>, sep: char)
    requires parts != [] && forall part <- parts :: sep !in part
    ensures Split(Join(parts, [sep]), sep) == parts
  {
    if |parts| == 1 {
      SplitOne(parts[0], sep);
    } else {
      assert forall part <- parts[1..] :: part in parts;
      JoinSplits(parts[1..], sep);
      SplitFirst(parts[0], Join(parts[1..], [sep]), sep);
      assert Join(parts, [sep]) == parts[0] + [sep] + Join(parts[1..], [sep]);
    }
  }

  lemma {:induction false} SplitOne(part: string, sep: char)
    requires sep !in part
    ensures Split(part, sep) == [part]
  {
    if part != "" {
      SplitOne(part[1..], sep);
      assert part == [part[0]] + part[1..];
    }
  }

  lemma {:induction false} SplitFirst(part: string, rest: string, sep: char)
    requires sep !in part
    ensures Split(part + [sep] + rest, sep) == [part] + Split(rest, sep)
  {
    var s := part + [sep] + rest;
    if part == "" {
      assert s[1..] == rest;
    } else {
      assert s[1..] == part[1..] + [sep] + rest;
      SplitFirst(part[1..], rest, sep);
      assert part == [part[0]] + part[1..];
    }
  }

  lemma {:induction false} JoinLast(parts: seq<string>, sep: string)
    requires |parts| > 1
    ensures Join(parts, sep) == Join(parts[..|parts| - 1], sep) + sep + parts[|parts| - 1]
  {
    if |parts| > 2 {
      assert parts[1..][..|parts| - 2] == parts[..|parts| - 1][1..];
      JoinLast(parts[1..], sep);
    }
  }

  lemma SplitLast(s: string, last: string, sep: char)
    requires sep !in last
    ensures Split(s + [sep] + last, sep) == Split(s, sep) + [last]
  {
    var parts := Split(s, sep) + [last];
    SplitJoins(s, sep);
    JoinLast(parts, [sep]);
    assert parts[..|parts| - 1] == Split(s, sep);
    JoinSplits(parts, sep);
  }

  /** Those that are not empty. */
  function NonEmpty(s: seq<string>): seq<string> {
    if s == [] then [] else (if s[0] != "" then [s[0]] else []) + NonEmpty(s[1..])
  }

  /** What is not empty stays, in order. */
  lemma {:induction false} NonEmptyMeans(a: seq<string>, b: seq<string>, x: string)
    ensures NonEmpty(a + b) == NonEmpty(a) + NonEmpty(b) && NonEmpty([x]) == (if x == "" then [] else [x])
  {
    assert [x][1..] == [];
    if a == [] {
      assert a + b == b;
    } else {
      NonEmptyMeans(a[1..], b, x);
      assert (a + b)[1..] == a[1..] + b;
      var first := if a[0] != "" then [a[0]] else [];
      assert first + (NonEmpty(a[1..]) + NonEmpty(b)) == first + NonEmpty(a[1..]) + NonEmpty(b);
    }
  }

  function SplitLines(s: string): (lines: seq<string>)
    ensures lines != [] && forall line <- lines :: '\n' !in line
  {
    Split(s, '\n')
  }

  function JoinLines(lines: seq<string>): string {
    Join(lines, "\n")
  }

  /** Strings compare by their first difference. */
  predicate Less(a: string, b: string) {
    b != "" && (a == "" || a[0] < b[0] || (a[0] == b[0] && Less(a[1..], b[1..])))
  }

  /** One is before another when it is the start of it, or has the lesser character where they first differ. */
  lemma {:induction false} LessMeans(a: string, b: string)
    ensures Less(a, b)
       <==> exists n: nat | n <= |a| && n < |b| :: a[..n] == b[..n] && (n == |a| || a[n] < b[n])
  {
    if a != "" && b != "" && a[0] == b[0] {
      LessMeans(a[1..], b[1..]);
      if n: nat :| n <= |a[1..]| && n < |b[1..]| && a[1..][..n] == b[1..][..n]
                   && (n == |a[1..]| || a[1..][n] < b[1..][n]) {
        assert a[..n + 1] == [a[0]] + a[1..][..n] && b[..n + 1] == [b[0]] + b[1..][..n];
        assert n + 1 == |a| || a[n + 1] < b[n + 1];
      }
      if n: nat :| n <= |a| && n < |b| && a[..n] == b[..n] && (n == |a| || a[n] < b[n]) {
        assert n > 0;
        assert a[1..][..n - 1] == a[..n][1..] && b[1..][..n - 1] == b[..n][1..];
        assert n - 1 == |a[1..]| || a[1..][n - 1] < b[1..][n - 1];
      }
    } else if b != "" {
      assert a[..0] == b[..0];
      if n: nat :| n <= |a| && n < |b| && a[..n] == b[..n] && (n == |a| || a[n] < b[n]) {
        assert n > 0 ==> a[..n][0] == b[..n][0];
      }
    }
  }

  lemma {:induction false} LessTotal(a: string, b: string)
    ensures !(Less(a, b) && Less(b, a)) && (a != b ==> Less(a, b) || Less(b, a)) && !Less(a, a)
  {
    if a != "" && b != "" && a[0] == b[0] {
      LessTotal(a[1..], b[1..]);
      assert a == [a[0]] + a[1..] && b == [b[0]] + b[1..];
    }
    if a != "" {
      LessTotal(a[1..], a[1..]);
    }
  }

  lemma {:induction false} LessTransitive(a: string, b: string, c: string)
    requires Less(a, b) && Less(b, c)
    ensures Less(a, c)
  {
    if a != "" && a[0] == b[0] == c[0] {
      LessTransitive(a[1..], b[1..], c[1..]);
    }
  }

  lemma NotLessTransitive(a: string, b: string, c: string)
    requires !Less(b, a) && !Less(c, b)
    ensures !Less(c, a)
  {
    LessTotal(a, b);
    LessTotal(b, c);
    if Less(c, a) {
      if a != b && b != c {
        LessTransitive(b, c, a);
      }
    }
  }

  function TrimLeft(s: string, cut: set<char>): string {
    if s != "" && s[0] in cut then TrimLeft(s[1..], cut) else s
  }

  function TrimRight(s: string, cut: set<char>): string {
    if s != "" && s[|s| - 1] in cut then TrimRight(s[..|s| - 1], cut) else s
  }

  /** What is cut from the end are characters of cut, all that are there. */
  lemma {:induction false} TrimRightMeans(s: string, cut: set<char>) returns (n: nat)
    ensures n <= |s| && TrimRight(s, cut) == s[..n] && (n > 0 ==> s[n - 1] !in cut)
    ensures forall i | n <= i < |s| :: s[i] in cut
  {
    n := |s|;
    if s != "" && s[n - 1] in cut {
      n := TrimRightMeans(s[..n - 1], cut);
      assert s[..|s| - 1][..n] == s[..n];
    }
  }

  lemma {:induction false} TrimLeftMeans(s: string, cut: set<char>) returns (n: nat)
    ensures n <= |s| && TrimLeft(s, cut) == s[n..] && (n < |s| ==> s[n] !in cut)
    ensures forall i | 0 <= i < n :: s[i] in cut
  {
    n := 0;
    if s != "" && s[0] in cut {
      n := TrimLeftMeans(s[1..], cut);
      n := n + 1;
    }
  }

  predicate Blank(s: string) {
    forall c <- s :: IsSpace(c)
  }

  function IndexOf(s: string, c: char): (i: nat)
    ensures i <= |s| && c !in s[..i] && (i < |s| ==> s[i] == c)
  {
    if s == "" || s[0] == c then 0
    else
      var i := IndexOf(s[1..], c);
      assert s[..i + 1] == [s[0]] + s[1..][..i];
      i + 1
  }

  function TrimSpace(s: string): string {
    if s != "" && IsSpace(s[0]) then TrimSpace(s[1..])
    else if s != "" && IsSpace(s[|s| - 1]) then TrimSpace(s[..|s| - 1])
    else s
  }

  /** What is trimmed are the spaces at either end, all of them. */
  lemma {:induction false} TrimSpaceMeans(s: string) returns (a: nat, b: nat)
    ensures a <= b <= |s| && TrimSpace(s) == s[a..b] && (a < b ==> !IsSpace(s[a]) && !IsSpace(s[b - 1]))
    ensures (forall i | 0 <= i < a :: IsSpace(s[i])) && forall i | b <= i < |s| :: IsSpace(s[i])
  {
    a, b := 0, |s|;
    if s != "" && IsSpace(s[0]) {
      a, b := TrimSpaceMeans(s[1..]);
      a, b := a + 1, b + 1;
    } else if s != "" && IsSpace(s[|s| - 1]) {
      a, b := TrimSpaceMeans(s[..|s| - 1]);
    }
  }

  /** A string up to a character it does not hold, and from there. */
  lemma {:induction false} CutAt(key: string, c: char, value: string)
    requires c !in key
    ensures IndexOf(key + [c] + value, c) == |key|
    ensures (key + [c] + value)[..|key|] == key && (key + [c] + value)[|key| + 1..] == value
  {
    if key == "" {
      assert key + [c] + value == [c] + value;
    } else {
      CutAt(key[1..], c, value);
      assert (key + [c] + value)[1..] == key[1..] + [c] + value;
    }
  }

  lemma {:induction false} IndexIn(a: string, c: char, b: string)
    ensures IndexOf(a + [c] + b, c) == IndexOf(a, c)
  {
    if a == "" {
      assert a + [c] + b == [c] + b;
    } else if a[0] != c {
      assert (a + [c] + b)[1..] == a[1..] + [c] + b;
      IndexIn(a[1..], c, b);
    }
  }

  lemma {:induction false} Trims(s: string)
    ensures |TrimSpace(s)| <= |s| && forall c <- TrimSpace(s) :: c in s
    ensures TrimSpace(s) != "" ==> !IsSpace(TrimSpace(s)[0]) && !IsSpace(TrimSpace(s)[|TrimSpace(s)| - 1])
    ensures TrimSpace(s) == s <==> s == "" || (!IsSpace(s[0]) && !IsSpace(s[|s| - 1]))
  {
    if s != "" && IsSpace(s[0]) {
      Trims(s[1..]);
    } else if s != "" && IsSpace(s[|s| - 1]) {
      Trims(s[..|s| - 1]);
    }
  }

  /** A string that starts with no space is trimmed to a prefix past any character that is no space. */
  lemma {:induction false} TrimEnd(s: string, i: nat) returns (n: nat)
    requires i < |s| && !IsSpace(s[0]) && !IsSpace(s[i])
    ensures i < n <= |s| && TrimSpace(s) == s[..n]
  {
    n := |s|;
    assert s[..n] == s;
    if IsSpace(s[|s| - 1]) {
      n := TrimEnd(s[..|s| - 1], i);
      assert s[..|s| - 1][..n] == s[..n];
    }
  }
}
