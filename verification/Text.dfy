/**
 Header text as octets: finding, splitting, joining and trimming, as the W3C codecs use them.
 */
module Text {
  import opened Basics

  type text = seq<byte>

  const TAB: byte := 0x09
  const SPACE: byte := 0x20
  const PERCENT: byte := 0x25
  const COMMA: byte := 0x2C
  const DASH: byte := 0x2D
  const SEMICOLON: byte := 0x3B
  const EQUALS: byte := 0x3D
  const AT: byte := 0x40

  predicate IsDigit(c: byte) { 0x30 <= c <= 0x39 }
  predicate IsLowerAlpha(c: byte) { 0x61 <= c <= 0x7A }
  predicate IsUpperAlpha(c: byte) { 0x41 <= c <= 0x5A }
  predicate IsOws(c: byte) { c == SPACE || c == TAB }

  /** Index of the first c, or |t|, which stands for npos. */
  function Find(t: text, c: byte): (i: nat)
    ensures i <= |t|
    ensures i < |t| ==> t[i] == c
    ensures forall j :: 0 <= j < i ==> t[j] != c
  {
    if t == [] || t[0] == c then 0 else 1 + Find(t[1..], c)
  }

  lemma FindIs(t: text, c: byte, i: nat)
    requires i <= |t| && (forall j :: 0 <= j < i ==> t[j] != c) && (i < |t| ==> t[i] == c)
    ensures Find(t, c) == i
  {
    var f := Find(t, c);
  }

  // ---------------------------------------------------------------- Trim

  function TrimLeft(t: text): (r: text) { if t != [] && IsOws(t[0]) then TrimLeft(t[1..]) else t }
  function TrimRight(t: text): (r: text) { if t != [] && IsOws(t[|t| - 1]) then TrimRight(t[..|t| - 1]) else t }

  /** TrimOptionalWhitespace */
  function Trim(t: text): text { TrimRight(TrimLeft(t)) }

  predicate Trimmed(t: text) { t != [] ==> !IsOws(t[0]) && !IsOws(t[|t| - 1]) }

  lemma TrimTrimmed(t: text)
    requires Trimmed(t)
    ensures Trim(t) == t
  {}

  /** TrimOptionalWhitespace, as the loops compute it. */
  method TrimOptionalWhitespace(text: text) returns (t: text)
    ensures t == Trim(text)
  {
    t := text;
    while t != [] && IsOws(t[0])
      invariant TrimLeft(t) == TrimLeft(text)
      decreases |t|
    {
      t := t[1..];
    }
    while t != [] && IsOws(t[|t| - 1])
      invariant TrimRight(t) == Trim(text)
      decreases |t|
    {
      t := t[..|t| - 1];
    }
  }

  /** Nothing but spaces and tabs. */
  predicate AllOws(t: text) { forall i :: 0 <= i < |t| ==> t[i] == 0x20 || t[i] == 0x09 }

  lemma {:induction false} TrimLeftSkips(a: text, t: text)
    requires AllOws(a)
    ensures TrimLeft(a + t) == TrimLeft(t)
  {
    if a == [] {
      assert a + t == t;
    } else {
      assert (a + t)[0] == a[0] && (a + t)[1..] == a[1..] + t;
      TrimLeftSkips(a[1..], t);
    }
  }

  lemma {:induction false} TrimRightSkips(t: text, b: text)
    requires AllOws(b)
    ensures TrimRight(t + b) == TrimRight(t)
    decreases b
  {
    if b == [] {
      assert t + b == t;
    } else {
      var n := |t + b| - 1;
      assert (t + b)[n] == b[|b| - 1] && (t + b)[..n] == t + b[..|b| - 1];
      TrimRightSkips(t, b[..|b| - 1]);
    }
  }

  /** Trimming stops at the first octet that is not white space. */
  lemma {:induction false} TrimLeftStops(a: text, c: byte, rest: text)
    requires !IsOws(c)
    ensures TrimLeft(a + [c] + rest) == TrimLeft(a) + [c] + rest
  {
    var t := a + [c] + rest;
    if a != [] && IsOws(a[0]) {
      assert t[1..] == a[1..] + [c] + rest;
      TrimLeftStops(a[1..], c, rest);
    } else if a == [] {
      assert t[0] == c;
    } else {
      assert t[0] == a[0];
    }
  }

  lemma {:induction false} TrimRightStops(front: text, c: byte, b: text)
    requires !IsOws(c)
    ensures TrimRight(front + [c] + b) == front + [c] + TrimRight(b)
    decreases b
  {
    var t := front + [c] + b;
    var n := |t| - 1;
    if b != [] && IsOws(b[|b| - 1]) {
      assert t[n] == b[|b| - 1] && t[..n] == front + [c] + b[..|b| - 1];
      TrimRightStops(front, c, b[..|b| - 1]);
    } else if b == [] {
      assert t[n] == c;
    } else {
      assert t[n] == b[|b| - 1];
    }
  }

  lemma {:induction false} TrimLeftParts(t: text)
    ensures |TrimLeft(t)| <= |t| && AllOws(t[..|t| - |TrimLeft(t)|]) && t[|t| - |TrimLeft(t)|..] == TrimLeft(t)
    ensures TrimLeft(t) != [] ==> !IsOws(TrimLeft(t)[0])
  {
    if t != [] && IsOws(t[0]) {
      TrimLeftParts(t[1..]);
      var k := |t| - |TrimLeft(t)|;
      assert t[..k] == [t[0]] + t[1..][..k - 1];
    }
  }

  lemma {:induction false} TrimRightParts(t: text)
    ensures |TrimRight(t)| <= |t| && t[..|TrimRight(t)|] == TrimRight(t) && AllOws(t[|TrimRight(t)|..])
    ensures TrimRight(t) != [] ==> !IsOws(TrimRight(t)[|TrimRight(t)| - 1])
  {
    if t != [] && IsOws(t[|t| - 1]) {
      var init := t[..|t| - 1];
      TrimRightParts(init);
      var k := |TrimRight(t)|;
      assert t[k..] == init[k..] + [t[|t| - 1]];
    }
  }

  /** What trimming is: white space off both ends, and nothing else. */
  lemma TrimIs(t: text) returns (a: text, b: text)
    ensures t == a + Trim(t) + b && AllOws(a) && AllOws(b) && Trimmed(Trim(t))
  {
    hide TrimLeft, TrimRight, AllOws;
    var left := TrimLeft(t);
    TrimLeftParts(t);
    TrimRightParts(left);
    a, b := t[..|t| - |left|], left[|Trim(t)|..];
    assert left == Trim(t) + b;
    if Trim(t) != [] { assert Trim(t)[0] == left[0]; }
  }

  /** White space around a text makes no difference. */
  lemma TrimPadded(a: text, t: text, b: text)
    requires AllOws(a) && AllOws(b)
    ensures Trim(a + t + b) == Trim(t)
  {
    hide TrimRight, TrimLeft, AllOws;
    assert a + t + b == a + (t + b);
    TrimLeftSkips(a, t + b);
    TrimLeftOfBlankEnd(t, b);
  }

  lemma TrimLeftOfBlankEnd(t: text, b: text)
    requires AllOws(b)
    ensures TrimRight(TrimLeft(t + b)) == TrimRight(TrimLeft(t))
  {
    hide TrimLeft, TrimRight, AllOws;
    TrimLeftParts(t);
    var left := TrimLeft(t);
    var a := t[..|t| - |left|];
    assert t == a + left && t + b == a + (left + b);
    TrimLeftSkips(a, left + b);
    if left == [] {
      BlankIsTrimmedAway(b);
      assert left + b == b;
    } else {
      FirstStays(left, b);
      TrimRightSkips(left, b);
    }
  }

  lemma BlankIsTrimmedAway(b: text)
    requires AllOws(b)
    ensures TrimLeft(b) == [] == TrimRight([])
  {
    hide TrimLeft, AllOws;
    TrimLeftSkips(b, []);
    assert b + [] == b;
    TrimEmpty();
  }

  lemma FirstStays(left: text, b: text)
    requires left != [] && !IsOws(left[0])
    ensures TrimLeft(left + b) == left + b && TrimLeft(left) == left
  {
    assert (left + b)[0] == left[0];
  }

  lemma TrimEmpty()
    ensures TrimLeft([]) == [] && TrimRight([]) == []
  {}

  /** The outer white space of a text with something in the middle. */
  lemma TrimAround(left: text, c: byte, right: text)
    requires !IsOws(c)
    ensures Trim(left + [c] + right) == TrimLeft(left) + [c] + TrimRight(right)
  {
    hide TrimLeft, TrimRight;
    TrimLeftStops(left, c, right);
    TrimRightStops(TrimLeft(left), c, right);
  }

  lemma TrimOfLeft(t: text)
    ensures Trim(TrimLeft(t)) == Trim(t)
  {
    hide TrimLeft, TrimRight, AllOws, Trim;
    TrimLeftParts(t);
    var a := t[..|t| - |TrimLeft(t)|];
    NoBlank();
    TrimPadded(a, TrimLeft(t), []);
    assert a + TrimLeft(t) + [] == t;
  }

  lemma TrimOfRight(t: text)
    ensures Trim(TrimRight(t)) == Trim(t)
  {
    hide TrimLeft, TrimRight, AllOws, Trim;
    TrimRightParts(t);
    var b := t[|TrimRight(t)|..];
    NoBlank();
    TrimPadded([], TrimRight(t), b);
    assert [] + TrimRight(t) + b == t;
  }

  lemma NoBlank()
    ensures AllOws([])
  {}

  // ---------------------------------------------------------------- Split and join

  /** The pieces between separators; always at least one, possibly empty. */
  function Split(t: text, sep: byte): (r: seq<text>)
    ensures |r| >= 1
  {
    var i := Find(t, sep);
    if i == |t| then [t] else [t[..i]] + Split(t[i + 1..], sep)
  }

  function Join(ps: seq<text>, sep: byte): text {
    if ps == [] then [] else if |ps| == 1 then ps[0] else ps[0] + [sep] + Join(ps[1..], sep)
  }

  /** The first piece, and the pieces of what follows its separator. */
  lemma SplitFirst(t: text, sep: byte)
    ensures var i := Find(t, sep);
            Split(t, sep) == [t[..i]] + if i == |t| then [] else Split(t[i + 1..], sep)
  {
    if Find(t, sep) == |t| { assert t[..|t|] == t; }
  }

  lemma {:induction false} SplitConcat(a: text, b: text, sep: byte)
    ensures Split(a + [sep] + b, sep) == Split(a, sep) + Split(b, sep)
    decreases a
  {
    hide Split;
    var i := Find(a, sep);
    var t := a + [sep] + b;
    FindIs(t, sep, i);
    SplitFirst(a, sep);
    SplitFirst(t, sep);
    assert t[..i] == a[..i];
    if i == |a| {
      assert t[i + 1..] == b;
    } else {
      assert t[i + 1..] == a[i + 1..] + [sep] + b;
      SplitConcat(a[i + 1..], b, sep);
      assert [a[..i]] + (Split(a[i + 1..], sep) + Split(b, sep)) == [a[..i]] + Split(a[i + 1..], sep) + Split(b, sep);
    }
  }

  lemma SplitSingle(t: text, sep: byte)
    requires sep !in t
    ensures Split(t, sep) == [t]
  {
    FindIs(t, sep, |t|);
  }

  /** Text without the separator at the end joins the last piece. */
  lemma {:induction false} SplitLast(t: text, b: text, sep: byte)
    requires sep !in b
    ensures var ps, n := Split(t, sep), |Split(t, sep)| - 1;
            Split(t + b, sep) == ps[n := ps[n] + b]
    decreases t
  {
    hide Split;
    SplitFirst(t, sep);
    SplitFirst(t + b, sep);
    var i := Find(t, sep);
    if i == |t| {
      SplitSingle(t + b, sep);
      assert t[..i] == t;
    } else {
      FindIs(t + b, sep, i);
      assert (t + b)[..i] == t[..i] && (t + b)[i + 1..] == t[i + 1..] + b;
      SplitLast(t[i + 1..], b, sep);
    }
  }

  /** Splitting undoes joining when no piece holds the separator. */
  lemma {:induction false} SplitJoin(ps: seq<text>, sep: byte)
    requires ps != [] && forall p :: p in ps ==> sep !in p
    ensures Split(Join(ps, sep), sep) == ps
  {
    hide Split;
    assert ps[0] in ps;
    SplitSingle(ps[0], sep);
    if |ps| == 1 {
      assert ps == [ps[0]];
    } else {
      SplitConcat(ps[0], Join(ps[1..], sep), sep);
      SplitJoin(ps[1..], sep);
      assert ps == [ps[0]] + ps[1..];
    }
  }

  lemma {:induction false} JoinAppend(ps: seq<text>, p: text, sep: byte)
    requires ps != []
    ensures Join(ps + [p], sep) == Join(ps, sep) + [sep] + p
  {
    var all := ps + [p];
    if |ps| == 1 {
      assert all[1..] == [p];
    } else {
      assert all[1..] == ps[1..] + [p];
      JoinAppend(ps[1..], p, sep);
    }
  }

  /** An octet of a piece is in the joined text. */
  lemma {:induction false} JoinHolds(ps: seq<text>, sep: byte, i: nat, c: byte)
    requires i < |ps| && c in ps[i]
    ensures c in Join(ps, sep)
    decreases ps
  {
    if |ps| > 1 {
      var rest := Join(ps[1..], sep);
      if i > 0 { JoinHolds(ps[1..], sep, i - 1, c); }
      assert Join(ps, sep) == ps[0] + [sep] + rest;
    }
  }

  /** And an octet of none of them is not. */
  lemma {:induction false} JoinPlain(ps: seq<text>, sep: byte, c: byte)
    requires c != sep && forall p <- ps :: c !in p
    ensures c !in Join(ps, sep)
    decreases ps
  {
    if |ps| > 1 {
      assert ps[0] in ps;
      JoinPlain(ps[1..], sep, c);
    } else if |ps| == 1 {
      assert ps[0] in ps;
    }
  }

  lemma JoinNonEmpty(ps: seq<text>, sep: byte)
    requires ps != [] && ps[0] != []
    ensures Join(ps, sep) != []
  {}
}
