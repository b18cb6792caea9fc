/**
 How one uploaded file is recorded (internal/deploycommit/file.go): the blob ID of its bytes, of its
 bytes with CRLF turned to LF, and of its Git LFS pointer, computed while the bytes stream past in
 chunks, without holding them. The hash functions are parameters, so what is proved holds for any.
 */
module BlobFile {
  import opened Collections
  import opened Numerals
  import opened Strings

  newtype Byte = x: int | 0 <= x < 256

  const CR: Byte := 13
  const LF: Byte := 10

  // ---------- What the streams must compute, over a whole byte string ----------

  predicate EndsCR(s: seq<Byte>) {
    s != [] && s[|s| - 1] == CR
  }

  predicate StartsCRLF(s: seq<Byte>) {
    |s| > 1 && s[0] == CR && s[1] == LF
  }

  /** s without the CRs that an LF follows. */
  function ToLF(s: seq<Byte>): seq<Byte> {
    if s == [] then [] else (if StartsCRLF(s) then [] else [s[0]]) + ToLF(s[1..])
  }

  /** How many CRLF line endings s holds. */
  function Crlfs(s: seq<Byte>): nat {
    if s == [] then 0 else (if StartsCRLF(s) then 1 else 0) + Crlfs(s[1..])
  }

  /** How many CRs in s no LF follows. */
  function LoneCRs(s: seq<Byte>): nat {
    if s == [] then 0 else (if s[0] == CR && !StartsCRLF(s) then 1 else 0) + LoneCRs(s[1..])
  }

  function Count(s: seq<Byte>, p: Byte -> bool): nat {
    if s == [] then 0 else (if p(s[0]) then 1 else 0) + Count(s[1..], p)
  }

  const IsNul: Byte -> bool := c => c == 0
  const IsPrintable: Byte -> bool := c => (32 <= c && c != 127) || c in {8, 9, 12, 27}
  const IsNonPrintable: Byte -> bool := c => c == 127 || (c < 32 && c !in {8, 9, 10, 12, 13, 27})

  /** git's convert_is_binary over a whole byte string; a final ^Z does not count. */
  predicate IsBinary(s: seq<Byte>) {
    || LoneCRs(s) > 0
    || Count(s, IsNul) > 0
    || Count(s, IsPrintable) / 128
       < Count(s, IsNonPrintable) - (if s != [] && s[|s| - 1] == 26 then 1 else 0)
  }

  // ---------- What those counts and that test come to ----------

  /** Where s has the bytes for which p holds. */
  function Where(s: seq<Byte>, p: Byte -> bool): set<nat> {
    set i: nat | i < |s| && p(s[i])
  }

  /** At i a CR that an LF follows, and one that none follows. */
  predicate CrlfAt(s: seq<Byte>, i: nat) {
    i < |s| - 1 && s[i] == 13 && s[i + 1] == 10
  }

  predicate LoneCRAt(s: seq<Byte>, i: nat) {
    i < |s| && s[i] == 13 && (i == |s| - 1 || s[i + 1] != 10)
  }

  function CrlfsAt(s: seq<Byte>): set<nat> {
    set i: nat | i < |s| && CrlfAt(s, i)
  }

  function LoneCRsAt(s: seq<Byte>): set<nat> {
    set i: nat | i < |s| && LoneCRAt(s, i)
  }

  function Shifted(at: set<nat>): set<nat> {
    set i: nat | i in at :: i + 1
  }

  lemma {:induction false} ShiftedSize(at: set<nat>)
    ensures |Shifted(at)| == |at|
  {
    if at != {} {
      var i :| i in at;
      ShiftedSize(at - {i});
      forall j: nat
        ensures j in Shifted(at) <==> j in Shifted(at - {i}) || j == i + 1
      {
        if j in Shifted(at) {
          var k: nat :| k in at && k + 1 == j;
          assert k == i || k in at - {i};
        }
        if j == i + 1 {
          assert i in at;
        }
      }
      assert Shifted(at) == Shifted(at - {i}) + {i + 1};
      assert i + 1 !in Shifted(at - {i});
    } else {
      assert Shifted(at) == {};
    }
  }

  lemma {:induction false} CountMeans(s: seq<Byte>, p: Byte -> bool)
    ensures Count(s, p) == |Where(s, p)|
  {
    if s == [] {
      assert Where(s, p) == {};
    } else {
      var rest := s[1..];
      CountMeans(rest, p);
      ShiftedSize(Where(rest, p));
      assert 0 !in Shifted(Where(rest, p));
      forall i: nat
        ensures i in Where(s, p) <==> (i == 0 && p(s[0])) || i in Shifted(Where(rest, p))
      {
        if 0 < i {
          assert i in Shifted(Where(rest, p)) <==> i - 1 in Where(rest, p);
        }
      }
      assert Where(s, p) == Shifted(Where(rest, p)) + if p(s[0]) then {0} else {};
    }
  }

  lemma {:induction false} CrlfsMean(s: seq<Byte>)
    ensures Crlfs(s) == |CrlfsAt(s)|
  {
    if s == [] {
      assert CrlfsAt(s) == {};
    } else {
      var rest := s[1..];
      CrlfsMean(rest);
      ShiftedSize(CrlfsAt(rest));
      CrlfsFrom(s);
      hide Shifted, CrlfsAt;
    }
  }

  lemma CrlfsFrom(s: seq<Byte>)
    requires s != []
    ensures |CrlfsAt(s)| == |Shifted(CrlfsAt(s[1..]))| + if StartsCRLF(s) then 1 else 0
  {
    var rest := s[1..];
    var later := Shifted(CrlfsAt(rest));
    forall i: nat
      ensures i in CrlfsAt(s) <==> (i == 0 && StartsCRLF(s)) || i in later
    {
      if 0 < i {
        assert i in later <==> i - 1 in CrlfsAt(rest);
      }
    }
    assert CrlfsAt(s) == later + if StartsCRLF(s) then {0} else {};
    assert 0 !in later;
  }

  lemma {:induction false} LoneCRsMean(s: seq<Byte>)
    ensures LoneCRs(s) == |LoneCRsAt(s)|
  {
    if s == [] {
      assert LoneCRsAt(s) == {};
    } else {
      var rest := s[1..];
      LoneCRsMean(rest);
      ShiftedSize(LoneCRsAt(rest));
      forall i: nat
        ensures i in LoneCRsAt(s) <==> (i == 0 && s[0] == CR && !StartsCRLF(s)) || i in Shifted(LoneCRsAt(rest))
      {
        if 0 < i {
          assert i in Shifted(LoneCRsAt(rest)) <==> i - 1 in LoneCRsAt(rest);
        }
      }
      assert LoneCRsAt(s) == Shifted(LoneCRsAt(rest)) + if s[0] == CR && !StartsCRLF(s) then {0} else {};
    }
  }

  /** What git takes for printable, and for not: of the controls backspace, tab, escape and form feed are printable. */
  predicate Printable(c: Byte) {
    c in {8, 9, 12, 27} || 32 <= c < 127 || c > 127
  }

  predicate NonPrintable(c: Byte) {
    c == 127 || (c < 32 && c !in {8, 9, 10, 12, 13, 27})
  }

  /**
   Bytes are binary with a NUL, with a CR that no LF follows, or when those that are not printable are more than a
   128th of those that are, a final ^Z aside.
   */
  lemma BinaryMeans(s: seq<Byte>)
    ensures IsBinary(s)
       <==> || 0 in s
            || (exists i: nat :: LoneCRAt(s, i))
            || |set i: nat | i < |s| && NonPrintable(s[i])| - (if s != [] && s[|s| - 1] == 26 then 1 else 0)
               > |set i: nat | i < |s| && Printable(s[i])| / 128
  {
    CountMeans(s, IsNul);
    CountMeans(s, IsPrintable);
    CountMeans(s, IsNonPrintable);
    LoneCRsMean(s);
    assert (set i: nat | i < |s| && NonPrintable(s[i])) == Where(s, IsNonPrintable);
    assert (set i: nat | i < |s| && Printable(s[i])) == Where(s, IsPrintable);
    if 0 in s {
      var i: nat :| i < |s| && s[i] == 0;
      assert i in Where(s, IsNul);
    }
    if Where(s, IsNul) != {} {
      var i :| i in Where(s, IsNul);
      assert s[i] in s;
    }
    if i: nat :| LoneCRAt(s, i) {
      assert i in LoneCRsAt(s);
    }
    if LoneCRsAt(s) != {} {
      var i :| i in LoneCRsAt(s);
      assert LoneCRAt(s, i);
    }
  }

  // ---------- Laws of those definitions ----------

  /** A split that does not cut a CRLF in two is no split at all. */
  lemma {:induction false} SplitOutsideCRLF(s: seq<Byte>, t: seq<Byte>)
    requires EndsCR(s) && t != [] ==> t[0] != LF
    ensures ToLF(s + t) == ToLF(s) + ToLF(t)
    ensures Crlfs(s + t) == Crlfs(s) + Crlfs(t)
    ensures t != [] || !EndsCR(s) ==> LoneCRs(s + t) == LoneCRs(s) + LoneCRs(t)
  {
    if s == [] {
      assert s + t == t;
    } else {
      assert (s + t)[1..] == s[1..] + t;
      if |s| == 1 {
        assert s[1..] + t == t;
      } else {
        SplitOutsideCRLF(s[1..], t);
      }
      if t == [] {
        assert s + t == s;
      }
    }
  }

  /** A split inside a CRLF: the CR counts for nothing, the pair for one LF. */
  lemma SplitInsideCRLF(s: seq<Byte>, t: seq<Byte>)
    requires EndsCR(s) && t != [] && t[0] == LF
    ensures ToLF(s + t) == ToLF(s[..|s| - 1]) + ToLF(t)
    ensures Crlfs(s + t) == Crlfs(s) + Crlfs(t) + 1
    ensures LoneCRs(s + t) == LoneCRs(s[..|s| - 1]) + LoneCRs(t)
  {
    var body, rest := s[..|s| - 1], [CR] + t;
    SplitOutsideCRLF(body, rest);
    assert s + t == body + rest;
    assert rest[1..] == t;
    SplitOutsideCRLF(body, [CR]);
    assert s == body + [CR] && Crlfs([CR]) == 0;
  }

  lemma {:induction false} CountAppend(s: seq<Byte>, t: seq<Byte>, p: Byte -> bool)
    ensures Count(s + t, p) == Count(s, p) + Count(t, p)
  {
    if s == [] {
      assert s + t == t;
    } else {
      assert (s + t)[1..] == s[1..] + t;
      CountAppend(s[1..], t, p);
    }
  }

  /** Turning CRLF to LF shortens the bytes by exactly one for each CRLF. */
  lemma {:induction false} ToLFShortens(s: seq<Byte>)
    ensures |ToLF(s)| == |s| - Crlfs(s)
    ensures Crlfs(s) == 0 ==> ToLF(s) == s
  {
    if s != [] {
      ToLFShortens(s[1..]);
      assert s == [s[0]] + s[1..];
    }
  }

  /** Somewhere in s a CR comes before a CRLF. */
  predicate DoublesCR(s: seq<Byte>) {
    |s| > 2 && ((s[0] == CR && StartsCRLF(s[1..])) || DoublesCR(s[1..]))
  }

  lemma {:induction false} NormalizedCRLF(s: seq<Byte>)
    ensures Crlfs(ToLF(s)) > 0 <==> DoublesCR(s)
  {
    if s != [] {
      NormalizedCRLF(s[1..]);
      var rest := ToLF(s[1..]);
      if StartsCRLF(s) {
        assert ToLF(s) == [] + rest == rest;
      } else {
        assert ToLF(s) == [s[0]] + rest && ([s[0]] + rest)[1..] == rest;
        assert |s| > 1 ==> rest != [] && (rest[0] == LF <==> s[1] == LF || StartsCRLF(s[1..])) by {
          FirstNormalized(s[1..]);
        }
      }
    }
  }

  lemma FirstNormalized(s: seq<Byte>)
    ensures s != [] ==> ToLF(s) != [] && (ToLF(s)[0] == LF <==> s[0] == LF || StartsCRLF(s))
  {
    if StartsCRLF(s) {
      assert s[1..][0] == LF;
      assert ToLF(s[1..])[0] == LF;
    }
  }

  /** Normalising twice is normalising once, exactly for content in which no CR comes before a CRLF. */
  lemma NormalizedIsStable(s: seq<Byte>)
    ensures ToLF(ToLF(s)) == ToLF(s) <==> !DoublesCR(s)
  {
    ToLFShortens(ToLF(s));
    NormalizedCRLF(s);
  }

  /** What of s is settled: all of it but a final CR, which the next byte still decides. */
  function Settled(s: seq<Byte>): seq<Byte> {
    if EndsCR(s) then s[..|s| - 1] else s
  }

  /** lfWriter: once flushed, its output is ToLF of all it was given, however that was split. */
  class LfWriter {
    var out: seq<Byte>
    var cr: bool
    ghost var given: seq<Byte>

    ghost predicate Valid()
      reads this
    {
      cr == EndsCR(given) && out == ToLF(Settled(given))
    }

    constructor ()
      ensures Valid() && given == []
    {
      out, cr, given := [], false, [];
    }

    method Write(p: seq<Byte>) returns (n: nat)
      requires Valid()
      modifies this
      ensures Valid() && given == old(given) + p && n == |p|
    {
      n := |p|;
      var rest := p;
      while rest != []
        invariant Valid()
        invariant given + rest == old(given) + p
        decreases |rest|
      {
        ghost var before := given;
        if cr {
          cr := false;
          if rest[0] != LF {
            out := out + [CR];
            SettleLoneCR(before);
          }
        }
        assert out == Held(before, rest[0]);
        var i := IndexCR(rest);
        if i < 0 {
          out := out + rest;
          given := given + rest;
          AcceptPlain(before, rest);
          break;
        }
        // A CR at the end of what was given is not out yet.
        out := out + rest[..i];
        cr := true;
        given := given + rest[..i + 1];
        AcceptToCR(before, rest, i);
        RejoinAt(before, rest, i + 1);
        rest := rest[i + 1..];
      }
      assert rest == [] ==> given == given + rest;
    }

    /** Nothing more comes: all that was given is out. */
    method Flush()
      requires Valid()
      modifies this`out, this`cr
      ensures out == ToLF(given) && !cr
    {
      if cr {
        cr := false;
        out := out + [CR];
        SettleLoneCR(given);
      }
    }
  }

  function IndexCR(s: seq<Byte>): (i: int)
    ensures -1 <= i < |s|
    ensures i < 0 ==> CR !in s
    ensures i >= 0 ==> s[i] == CR && CR !in s[..i]
  {
    if s == [] then -1
    else if s[0] == CR then 0
    else
      var i := IndexCR(s[1..]);
      assert i >= 0 ==> s[..i + 1] == [s[0]] + s[1..][..i];
      if i < 0 then -1 else i + 1
  }

  lemma {:induction false} PlainBytes(s: seq<Byte>)
    requires CR !in s
    ensures ToLF(s) == s && Crlfs(s) == 0 && LoneCRs(s) == 0
  {
    if s != [] {
      PlainBytes(s[1..]);
      assert s == [s[0]] + s[1..];
    }
  }

  lemma SettleLoneCR(s: seq<Byte>)
    requires EndsCR(s)
    ensures ToLF(s) == ToLF(Settled(s)) + [CR]
    ensures Crlfs(s) == Crlfs(Settled(s)) && LoneCRs(s) == LoneCRs(Settled(s)) + 1
  {
    assert s == Settled(s) + [CR];
    SplitOutsideCRLF(Settled(s), [CR]);
    assert ToLF([CR]) == [CR] && LoneCRs([CR]) == 1 && Crlfs([CR]) == 0;
  }

  /** What is out for s once the next byte c has settled a CR at its end. */
  ghost function Held(s: seq<Byte>, c: Byte): seq<Byte> {
    if EndsCR(s) && c != LF then ToLF(s) else ToLF(Settled(s))
  }

  /** Taking bytes without a CR puts them out as they are. */
  lemma AcceptPlain(s: seq<Byte>, t: seq<Byte>)
    requires t != [] && CR !in t
    ensures !EndsCR(s + t) && ToLF(Settled(s + t)) == Held(s, t[0]) + t
  {
    PlainBytes(t);
    assert (s + t)[|s + t| - 1] == t[|t| - 1];
    if EndsCR(s) && t[0] == LF {
      SplitInsideCRLF(s, t);
    } else {
      SplitOutsideCRLF(s, t);
    }
  }

  /** Taking bytes up to their first CR, at i, puts out those before it. */
  lemma AcceptToCR(s: seq<Byte>, t: seq<Byte>, i: nat)
    requires i < |t| && t[i] == CR && CR !in t[..i]
    ensures EndsCR(s + t[..i + 1]) && ToLF(Settled(s + t[..i + 1])) == Held(s, t[0]) + t[..i]
  {
    assert Settled(s + t[..i + 1]) == s + t[..i];
    if i == 0 {
      assert s + t[..0] == s;
      assert Held(s, t[0]) + t[..0] == Held(s, t[0]);
    } else {
      AcceptPlain(s, t[..i]);
    }
  }

  lemma OneMore(s: seq<Byte>, t: seq<Byte>, i: nat)
    requires i < |t|
    ensures s + t[..i] + [t[i]] == s + t[..i + 1]
  {
  }

  lemma RejoinAt(s: seq<Byte>, t: seq<Byte>, i: nat)
    requires i <= |t|
    ensures s + t == s + t[..i] + t[i..]
  {
  }

  /** textStats: the counts git's text=auto judges bytes by, gathered byte by byte. */
  class TextStats {
    var crlf: nat
    var loneCR: nat
    var nul: nat
    var printable: nat
    var nonPrintable: nat
    var cr: bool
    var last: Byte
    var seen: bool
    ghost var given: seq<Byte>

    ghost predicate Valid()
      reads this
    {
      && crlf == Crlfs(given) && loneCR == LoneCRs(Settled(given))
      && nul == Count(given, IsNul) && printable == Count(given, IsPrintable)
      && nonPrintable == Count(given, IsNonPrintable)
      && cr == EndsCR(given) && seen == (given != []) && (seen ==> last == given[|given| - 1])
    }

    constructor ()
      ensures Valid() && given == []
    {
      crlf, loneCR, nul, printable, nonPrintable := 0, 0, 0, 0, 0;
      cr, last, seen, given := false, 0, false, [];
    }

    method Write(p: seq<Byte>) returns (n: nat)
      requires Valid()
      modifies this
      ensures Valid() && given == old(given) + p && n == |p|
    {
      for i := 0 to |p|
        invariant Valid()
        invariant given == old(given) + p[..i]
      {
        See(p[i]);
        OneMore(old(given), p, i);
      }
      assert p[..|p|] == p;
      n := |p|;
    }

    /** One turn of Write's loop. */
    method See(c: Byte)
      requires Valid()
      modifies this
      ensures Valid() && given == old(given) + [c]
    {
      hide Crlfs, LoneCRs, Settled, Count, IsNul, IsPrintable, IsNonPrintable;
      StatsAfter(given, c);
      given := given + [c];
      if cr {
        cr := false;
        if c == LF {
          LineFeedCounts();
          crlf, last := crlf + 1, c;
          return;
        }
        loneCR := loneCR + 1;
      }
      Class(c);
      last, seen := c, true;
    }

    /** Counts a byte that ends no CRLF by its class. */
    method Class(c: Byte)
      requires !cr
      modifies this`cr, this`nul, this`printable, this`nonPrintable
      ensures cr == (c == CR) && nul == old(nul) + (if IsNul(c) then 1 else 0)
      ensures printable == old(printable) + (if IsPrintable(c) then 1 else 0)
      ensures nonPrintable == old(nonPrintable) + (if IsNonPrintable(c) then 1 else 0)
    {
      if c == CR {
        cr := true;
      } else if c == LF {
      } else if c == 127 {
        nonPrintable := nonPrintable + 1;
      } else if c < 32 {
        if c == 8 || c == 9 || c == 27 || c == 12 {
          printable := printable + 1;
        } else if c == 0 {
          nul, nonPrintable := nul + 1, nonPrintable + 1;
        } else {
          nonPrintable := nonPrintable + 1;
        }
      } else {
        printable := printable + 1;
      }
    }

    /** The counters decide IsBinary for all bytes given. */
    method Binary() returns (b: bool)
      requires Valid()
      ensures b == IsBinary(given)
    {
      var lone, non := loneCR, nonPrintable as int;
      if cr {
        SettleLoneCR(given);
        lone := lone + 1;
      }
      if seen && last == 26 {
        non := non - 1;
      }
      b := lone > 0 || nul > 0 || printable / 128 < non;
    }
  }

  lemma LineFeedCounts()
    ensures !IsNul(LF) && !IsPrintable(LF) && !IsNonPrintable(LF)
  {
  }

  lemma StatsAfter(s: seq<Byte>, c: Byte)
    ensures Crlfs(s + [c]) == Crlfs(s) + (if EndsCR(s) && c == LF then 1 else 0)
    ensures LoneCRs(Settled(s + [c])) == LoneCRs(Settled(s)) + (if EndsCR(s) && c != LF then 1 else 0)
    ensures Count(s + [c], IsNul) == Count(s, IsNul) + (if IsNul(c) then 1 else 0)
    ensures Count(s + [c], IsPrintable) == Count(s, IsPrintable) + (if IsPrintable(c) then 1 else 0)
    ensures Count(s + [c], IsNonPrintable) == Count(s, IsNonPrintable) + (if IsNonPrintable(c) then 1 else 0)
  {
    CountAppend(s, [c], IsNul);
    CountAppend(s, [c], IsPrintable);
    CountAppend(s, [c], IsNonPrintable);
    assert [c][1..] == [];
    if EndsCR(s) {
      SettleLoneCR(s);
    }
    if EndsCR(s) && c == LF {
      SplitInsideCRLF(s, [c]);
    } else {
      SplitOutsideCRLF(s, [c]);
    }
    if c == CR {
      assert Settled(s + [c]) == s;
    }
  }

  // ---------- Blob IDs ----------

  function Ascii(s: string): (b: seq<Byte>)
    ensures |b| == |s|
  {
    seq(|s|, i requires 0 <= i < |s| => (s[i] as int % 256) as Byte)
  }

  /** The header git hashes before a blob of size bytes: "blob <size>" and a NUL. */
  function Header(size: nat): seq<Byte> {
    Ascii("blob " + Decimal(size)) + [0]
  }

  lemma AsciiConcat(a: string, b: string)
    ensures Ascii(a + b) == Ascii(a) + Ascii(b)
  {
  }

  lemma BlobWord()
    ensures Ascii("blob ") == [98, 108, 111, 98, 32]
  {
  }

  /** The header is the word blob, a space, the size in decimal digits and a NUL. */
  lemma HeaderMeans(size: nat)
    ensures Header(size) == [98, 108, 111, 98, 32] + Ascii(Decimal(size)) + [0]
    ensures forall i | 0 <= i < |Decimal(size)| :: Ascii(Decimal(size))[i] as int == Decimal(size)[i] as int
  {
    DecimalReadsBack(size);
    AsciiConcat("blob ", Decimal(size));
    BlobWord();
    forall i | 0 <= i < |Decimal(size)|
      ensures Ascii(Decimal(size))[i] as int == Decimal(size)[i] as int
    {
      assert Decimal(size)[i] in Decimal(size);
    }
  }

  function BlobID(sha1: seq<Byte> -> string, content: seq<Byte>): string {
    sha1(Header(|content|) + content)
  }

  function Pointer(hash: string, size: string): string {
    "version https://git-lfs.github.com/spec/v1" + "\noid sha256:" + hash + "\nsize " + size + "\n"
  }

  /** The text of a Git LFS pointer to content. */
  function LfsPointer(sha256: seq<Byte> -> string, content: seq<Byte>): seq<Byte> {
    Ascii(Pointer(sha256(content), Decimal(|content|)))
  }

  /** A blob's ID is the hash of that header and the content. */
  lemma BlobIDMeans(sha1: seq<Byte> -> string, content: seq<Byte>)
    ensures BlobID(sha1, content) == sha1([98, 108, 111, 98, 32] + Ascii(Decimal(|content|)) + [0] + content)
  {
    HeaderMeans(|content|);
  }

  lemma ThreeLines(a: string, b: string, c: string)
    requires '\n' !in a + b + c
    ensures Split(a + "\n" + b + "\n" + c + "\n", '\n') == [a, b, c, ""]
  {
    hide Split;
    var rest := c + "\n" + "";
    var more := b + "\n" + rest;
    assert forall x :: (x in a || x in b || x in c) ==> x in a + b + c;
    SplitFirst(a, more, '\n');
    SplitFirst(b, rest, '\n');
    SplitFirst(c, "", '\n');
    SplitOne("", '\n');
    assert a + "\n" + b + "\n" + c + "\n" == a + ['\n'] + more;
  }

  /** The pointer has three lines: which specification it follows, the content's SHA-256, and its size. */
  lemma LfsPointerMeans(sha256: seq<Byte> -> string, content: seq<Byte>) returns (text: string)
    requires '\n' !in sha256(content)
    ensures LfsPointer(sha256, content) == Ascii(text)
    ensures Split(text, '\n') == ["version https://git-lfs.github.com/spec/v1", "oid sha256:" + sha256(content),
                                  "size " + Decimal(|content|), ""]
  {
    hide Split, Ascii, Decimal;
    var hash, size := sha256(content), Decimal(|content|);
    DecimalReadsBack(|content|);
    text := Pointer(hash, size);
    PointerLines(hash, size);
  }

  lemma PointerLines(hash: string, size: string)
    requires '\n' !in hash && forall c <- size :: '0' <= c <= '9'
    ensures Split(Pointer(hash, size), '\n')
            == ["version https://git-lfs.github.com/spec/v1", "oid sha256:" + hash, "size " + size, ""]
  {
    hide Split;
    var a, b, c := "version https://git-lfs.github.com/spec/v1", "oid sha256:" + hash, "size " + size;
    ThreeLines(a, b, c);
    assert "\n" + "oid sha256:" == "\noid sha256:" && "\n" + "size " == "\nsize ";
    Regrouped(a, "oid sha256:", hash, "size ", size);
  }

  lemma Regrouped(a: string, b: string, hash: string, c: string, size: string)
    ensures a + "\n" + (b + hash) + "\n" + (c + size) + "\n"
            == a + ("\n" + b) + hash + ("\n" + c) + size + "\n"
  {
  }

  ghost predicate Injective(h: seq<Byte> -> string) {
    forall x, y :: h(x) == h(y) ==> x == y
  }

  lemma DigitBytes(n: nat)
    ensures EndsAtNul(Header(n))
  {
    DecimalReadsBack(n);
    var text := "blob " + Decimal(n);
    forall i | 0 <= i < |text|
      ensures Header(n)[i] != 0
    {
      assert Header(n)[i] == Ascii(text)[i];
      if i >= 5 {
        assert text[i] == Decimal(n)[i - 5];
        assert text[i] in Decimal(n);
      }
    }
  }

  /** h ends at its first NUL. */
  ghost predicate EndsAtNul(h: seq<Byte>) {
    h != [] && forall i | 0 <= i < |h| :: h[i] == 0 <==> i == |h| - 1
  }

  lemma CutAtNul(h: seq<Byte>, x: seq<Byte>, k: seq<Byte>, y: seq<Byte>)
    requires EndsAtNul(h) && EndsAtNul(k) && h + x == k + y
    ensures h == k && x == y
  {
    var joined := h + x;
    assert joined[|h| - 1] == 0 && joined[|k| - 1] == 0;
    assert |h| == |k|;
    assert h == joined[..|h|] == k;
    assert x == joined[|h|..] == y;
  }

  lemma AsciiNamesText(a: string, b: string)
    requires Ascii(a) == Ascii(b)
    requires forall c <- a :: c as int < 128
    requires forall c <- b :: c as int < 128
    ensures a == b
  {
    assert |a| == |Ascii(a)| == |b|;
    forall i | 0 <= i < |a|
      ensures a[i] == b[i]
    {
      assert a[i] in a && b[i] in b;
      assert a[i] as int % 256 == Ascii(a)[i] as int == Ascii(b)[i] as int == b[i] as int % 256;
    }
  }

  lemma HeaderNamesSize(m: nat, n: nat)
    requires Header(m) == Header(n)
    ensures m == n
  {
    var a, b := "blob " + Decimal(m), "blob " + Decimal(n);
    assert Ascii(a) == Header(m)[..|a|];
    assert Ascii(b) == Header(n)[..|b|];
    DecimalReadsBack(m);
    DecimalReadsBack(n);
    assert forall c <- "blob " :: c as int < 128;
    AsciiNamesText(a, b);
    assert Decimal(m) == a[5..] == b[5..] == Decimal(n);
    DecimalInjective(m, n);
  }

  /** A header ends at its first NUL, so a hashed stream has one reading only. */
  lemma HeaderReadsOneWay(m: nat, x: seq<Byte>, n: nat, y: seq<Byte>)
    requires Header(m) + x == Header(n) + y
    ensures m == n && x == y
  {
    DigitBytes(m);
    DigitBytes(n);
    CutAtNul(Header(m), x, Header(n), y);
    HeaderNamesSize(m, n);
  }

  /** Two blobs share an ID only when they hold the same bytes. */
  lemma BlobIDNamesContent(sha1: seq<Byte> -> string, x: seq<Byte>, y: seq<Byte>)
    requires Injective(sha1) && BlobID(sha1, x) == BlobID(sha1, y)
    ensures x == y
  {
    HeaderReadsOneWay(|x|, x, |y|, y);
  }

  // ---------- Recording a file ----------

  /** One file an upload holds; lf is "" when it has no CRLF line ending. */
  datatype File = File(raw: string, lf: string, lfs: string, binary: bool)

  datatype CopyResult = Copied(file: File) | ChangedSize

  /** What Copy records of content that stays the same while it is read. */
  function Recorded(sha1: seq<Byte> -> string, sha256: seq<Byte> -> string, content: seq<Byte>): File {
    File(BlobID(sha1, content),
         if Crlfs(content) > 0 then BlobID(sha1, ToLF(content)) else "",
         BlobID(sha1, LfsPointer(sha256, content)),
         IsBinary(content))
  }

  /**
   Copies the bytes a source delivers in chunks and records them. When they hold CRLF line endings the
   source is read again from the start, in chunks of its own; again is what that read delivers, short
   of size bytes when it fails.
   */
  method Copy(sha1: seq<Byte> -> string, sha256: seq<Byte> -> string, size: nat,
              chunks: seq<seq<Byte>>, again: seq<seq<Byte>>)
    returns (r: CopyResult, dst: seq<Byte>)
    ensures dst == Flatten(chunks)
    ensures r.ChangedSize? <==> |dst| != size
    ensures r.Copied? ==>
              var whole := Recorded(sha1, sha256, dst);
              && r.file.(lf := whole.lf) == whole
              && (Flatten(again) == dst ==> r.file == whole)
              && (Injective(sha1) ==> r.file.lf == whole.lf || r.file.lf == "")
  {
    var crlf, binary;
    dst, crlf, binary := CopyAll(chunks);
    if |dst| != size {
      return ChangedSize, dst;
    }
    var file := File(BlobID(sha1, dst), "", BlobID(sha1, LfsPointer(sha256, dst)), binary);
    if crlf > 0 {
      ToLFShortens(dst);
      var lf := LfBlobID(sha1, size, crlf, file.raw, again);
      file := file.(lf := lf);
      SameStream(sha1, Flatten(again), dst);
    }
    r := Copied(file);
  }

  /** The pass that writes dst and gathers what is counted on the way. */
  method CopyAll(chunks: seq<seq<Byte>>) returns (dst: seq<Byte>, crlf: nat, binary: bool)
    ensures dst == Flatten(chunks) && crlf == Crlfs(dst) && binary == IsBinary(dst)
  {
    var stats := new TextStats();
    dst := [];
    for k := 0 to |chunks|
      invariant dst == stats.given == Flatten(chunks[..k])
      invariant stats.Valid()
    {
      var _ := stats.Write(chunks[k]);
      dst := dst + chunks[k];
      FlattenTo(chunks, k);
    }
    assert chunks[..|chunks|] == chunks;
    binary := stats.Binary();
    crlf := stats.crlf;
  }

  lemma SameStream(sha1: seq<Byte> -> string, x: seq<Byte>, y: seq<Byte>)
    ensures Injective(sha1) && |x| == |y| && sha1(Header(|x|) + x) == BlobID(sha1, y) ==> x == y
  {
    if Injective(sha1) && |x| == |y| && sha1(Header(|x|) + x) == BlobID(sha1, y) {
      BlobIDNamesContent(sha1, x, y);
    }
  }

  /**
   The hash of the bytes read again and normalised, under a header that
   counts crlf bytes less; "" when the read fell short or no longer gives raw.
   */
  method LfBlobID(sha1: seq<Byte> -> string, size: nat, crlf: nat, raw: string, again: seq<seq<Byte>>)
    returns (id: string)
    requires crlf <= size
    ensures
      var bytes := Flatten(again);
      id == if |bytes| == size && sha1(Header(size) + bytes) == raw then sha1(Header(size - crlf) + ToLF(bytes)) else ""
  {
    var normalize := new LfWriter();
    var bytes := [];
    for k := 0 to |again|
      invariant normalize.Valid() && bytes == normalize.given == Flatten(again[..k])
    {
      var _ := normalize.Write(again[k]);
      bytes := bytes + again[k];
      FlattenTo(again, k);
    }
    assert again[..|again|] == again;
    if |bytes| != size {
      return "";
    }
    normalize.Flush();
    if sha1(Header(size) + bytes) != raw {
      return "";
    }
    id := sha1(Header(size - crlf) + normalize.out);
  }

  /** However bytes are split into writes, flushing leaves ToLF of the whole string. */
  method WriteChunks(chunks: seq<seq<Byte>>) returns (out: seq<Byte>)
    ensures out == ToLF(Flatten(chunks))
    ensures |out| == |Flatten(chunks)| - Crlfs(Flatten(chunks))
  {
    var w := new LfWriter();
    for k := 0 to |chunks|
      invariant w.Valid() && w.given == Flatten(chunks[..k])
    {
      var _ := w.Write(chunks[k]);
      FlattenTo(chunks, k);
    }
    assert chunks[..|chunks|] == chunks;
    w.Flush();
    ToLFShortens(w.given);
    out := w.out;
  }
}
