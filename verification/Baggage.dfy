/**
 W3C Baggage (section 3 of the specification; keys are tokens, section 3.2.6 of RFC 7230): the
 percent codec, the member and property grammar, the three limits and the copy-on-write mutators.
 */
module Baggage {
  import opened Basics
  import opened Text

  const MAX_ENTRIES := 180
  const MAX_ENTRY_BYTES := 4096
  const MAX_TOTAL_BYTES := 8192

  // ---------------------------------------------------------------- Grammar

  predicate IsTokenChar(c: byte) {
    || IsLowerAlpha(c) || IsUpperAlpha(c) || IsDigit(c)
    || c in {0x21, 0x23, 0x24, 0x25, 0x26, 0x27, 0x2A, 0x2B, 0x2D, 0x2E, 0x5E, 0x5F, 0x60, 0x7C, 0x7E}
  }

  predicate IsToken(t: text) { t != [] && forall i :: 0 <= i < |t| ==> IsTokenChar(t[i]) }

  predicate IsBaggageOctet(c: byte) {
    0x21 <= c <= 0x7E && c != 0x22 && c != COMMA && c != SEMICOLON && c != 0x5C
  }

  predicate IsWireValue(t: text) { forall i :: 0 <= i < |t| ==> IsBaggageOctet(t[i]) }

  predicate IsHexDigit(c: byte) { IsDigit(c) || 0x61 <= c <= 0x66 || 0x41 <= c <= 0x46 }

  function HexValue(c: byte): (v: nat)
    requires IsHexDigit(c)
    ensures v < 16
  {
    if IsDigit(c) then c - 0x30 else if 0x61 <= c <= 0x66 then c - 0x61 + 10 else c - 0x41 + 10
  }

  function UpperHex(n: nat): (c: byte)
    requires n < 16
    ensures IsHexDigit(c) && HexValue(c) == n
  {
    if n < 10 then 0x30 + n else 0x41 + n - 10
  }

  predicate NeedsEscape(c: byte) { !IsBaggageOctet(c) || c == PERCENT }

  /** baggage-octet, as section 3.3 of W3C Baggage writes it. */
  lemma OctetsAreAsSpecified(c: byte)
    ensures IsBaggageOctet(c) <==>
              c == 0x21 || 0x23 <= c <= 0x2B || 0x2D <= c <= 0x3A || 0x3C <= c <= 0x5B || 0x5D <= c <= 0x7E
  {}

  /** tchar, as section 3.2.6 of RFC 7230 describes it: any visible character except the delimiters. */
  lemma TokenCharsAreVisible(c: byte)
    ensures IsTokenChar(c) <==>
              && 0x21 <= c <= 0x7E
              && c !in {0x22, 0x28, 0x29, 0x2C, 0x2F, 0x3A, 0x3B, 0x3C, 0x3D, 0x3E, 0x3F, 0x40}
              && c !in {0x5B, 0x5C, 0x5D, 0x7B, 0x7D}
  {}

  // ---------------------------------------------------------------- The percent codec

  function EncodeOctet(c: byte): text {
    if NeedsEscape(c) then [PERCENT, UpperHex(c / 16), UpperHex(c % 16)] else [c]
  }

  function Encode(v: text): text { if v == [] then [] else EncodeOctet(v[0]) + Encode(v[1..]) }

  function Decode(raw: text): Option<text> {
    if raw == [] then Some([])
    else if !IsBaggageOctet(raw[0]) then None
    else if raw[0] != PERCENT then Push([raw[0]], Decode(raw[1..]))
    else if |raw| < 3 || !IsHexDigit(raw[1]) || !IsHexDigit(raw[2]) then None
    else Push([16 * HexValue(raw[1]) + HexValue(raw[2])], Decode(raw[3..]))
  }

  function Push(front: text, rest: Option<text>): Option<text> {
    match rest case None => None case Some(r) => Some(front + r)
  }

  function EncodedSize(v: text): nat {
    if v == [] then 0 else (if NeedsEscape(v[0]) then 3 else 1) + EncodedSize(v[1..])
  }

  lemma {:induction false} EncodeIsWire(v: text)
    ensures IsWireValue(Encode(v)) && |Encode(v)| == EncodedSize(v)
  {
    if v != [] { EncodeIsWire(v[1..]); }
  }

  lemma DecodeFront(c: byte, rest: text)
    ensures Decode(EncodeOctet(c) + rest) == Push([c], Decode(rest))
  {
    var raw := EncodeOctet(c) + rest;
    if NeedsEscape(c) {
      assert raw[0] == PERCENT && raw[1] == UpperHex(c / 16) && raw[2] == UpperHex(c % 16);
      assert raw[3..] == rest;
    } else {
      assert raw[1..] == rest;
    }
  }

  /** Decoding undoes encoding, for every octet string. */
  lemma {:induction false} CodecRoundTrip(v: text)
    ensures Decode(Encode(v)) == Some(v)
  {
    if v != [] {
      DecodeFront(v[0], Encode(v[1..]));
      CodecRoundTrip(v[1..]);
      assert [v[0]] + v[1..] == v;
    }
  }

  /** Octets that may stand for themselves do. */
  lemma {:induction false} PlainDecodes(raw: text)
    requires IsWireValue(raw) && PERCENT !in raw
    ensures Decode(raw) == Some(raw)
  {
    if raw != [] {
      PlainDecodes(raw[1..]);
      assert [raw[0]] + raw[1..] == raw;
    }
  }

  /** Nothing is decoded from octets that may not stand in a value. */
  lemma {:induction false} DecodedIsWire(raw: text)
    requires Decode(raw).Some?
    ensures IsWireValue(raw)
  {
    if raw != [] {
      if raw[0] != PERCENT { DecodedIsWire(raw[1..]); } else { DecodedIsWire(raw[3..]); }
      assert raw[0] == PERCENT ==> raw == raw[..3] + raw[3..];
    }
  }

  function LowerHex(n: nat): byte
    requires n < 16
  {
    if n < 10 then 0x30 + n else 0x61 + n - 10
  }

  /** An escape may be written in either case, and stands for its octet. */
  lemma EitherCase(c: byte, rest: text)
    ensures Decode([PERCENT, LowerHex(c / 16), LowerHex(c % 16)] + rest) == Push([c], Decode(rest))
    ensures Decode([PERCENT, UpperHex(c / 16), UpperHex(c % 16)] + rest) == Push([c], Decode(rest))
  {
    assert ([PERCENT, LowerHex(c / 16), LowerHex(c % 16)] + rest)[3..] == rest;
    assert ([PERCENT, UpperHex(c / 16), UpperHex(c % 16)] + rest)[3..] == rest;
  }

  /** The loop of DecodeValue. */
  method DecodeValue(raw: text) returns (out: Option<text>)
    ensures out == Decode(raw)
  {
    var decoded: text := [];
    var at: nat := 0;
    assert raw[0..] == raw;
    PushNothing(Decode(raw));
    while at < |raw|
      invariant at <= |raw|
      invariant Decode(raw) == Push(decoded, Decode(raw[at..]))
    {
      var c := raw[at];
      ghost var rest := raw[at..];
      if !IsBaggageOctet(c) {
        return None;
      }
      if c != PERCENT {
        assert rest[1..] == raw[at + 1..];
        PushPush(decoded, [c], Decode(raw[at + 1..]));
        decoded := decoded + [c];
        at := at + 1;
        continue;
      }
      if at + 3 > |raw| {
        return None;
      }
      var high, low := raw[at + 1], raw[at + 2];
      assert rest[1] == high && rest[2] == low;
      if !IsHexDigit(high) || !IsHexDigit(low) {
        return None;
      }
      assert rest[3..] == raw[at + 3..];
      PushPush(decoded, [16 * HexValue(high) + HexValue(low)], Decode(raw[at + 3..]));
      decoded := decoded + [16 * HexValue(high) + HexValue(low)];
      at := at + 3;
    }
    assert decoded + [] == decoded;
    out := Some(decoded);
  }

  lemma PushNothing(rest: Option<text>)
    ensures Push([], rest) == rest
  {
    if rest.Some? { assert [] + rest.value == rest.value; }
  }

  lemma PushPush(a: text, b: text, rest: Option<text>)
    ensures Push(a, Push(b, rest)) == Push(a + b, rest)
  {
    if rest.Some? { assert a + (b + rest.value) == a + b + rest.value; }
  }

  /** The loop of AppendEncoded. */
  method AppendEncoded(decoded: text, out: text) returns (r: text)
    ensures r == out + Encode(decoded)
  {
    r := out;
    var i := 0;
    assert decoded[0..] == decoded;
    while i < |decoded|
      invariant 0 <= i <= |decoded|
      invariant r + Encode(decoded[i..]) == out + Encode(decoded)
    {
      var c := decoded[i];
      assert decoded[i..][1..] == decoded[i + 1..];
      assert r + (EncodeOctet(c) + Encode(decoded[i + 1..])) == r + EncodeOctet(c) + Encode(decoded[i + 1..]);
      if !NeedsEscape(c) {
        r := r + [c];
      } else {
        r := r + [PERCENT, UpperHex(c / 16), UpperHex(c % 16)];
      }
      i := i + 1;
    }
  }

  // ---------------------------------------------------------------- Properties

  /** AppendProperty without the separator: one property, made canonical. */
  function CanonProperty(property: text): Option<text> {
    var eq := Find(property, EQUALS);
    var name := Trim(property[..eq]);
    if !IsToken(name) then None
    else if eq == |property| then Some(name)
    else var value := Trim(property[eq + 1..]);
         if IsWireValue(value) then Some(name + [EQUALS] + value) else None
  }

  /** The properties of a tail, piece by piece. */
  function CanonPieces(pieces: seq<text>): Option<seq<text>> {
    if pieces == [] then Some([]) else
    match CanonProperty(Trim(pieces[0]))
    case None => None
    case Some(p) => match CanonPieces(pieces[1..]) case None => None case Some(ps) => Some([p] + ps)
  }

  /** ParseProperties: the canonical `;`-joined tail. */
  function ParseTail(tail: text): Option<text> {
    match CanonPieces(Split(tail, SEMICOLON)) case None => None case Some(ps) => Some(Join(ps, SEMICOLON))
  }

  /** A property as it is stored: a token, alone or with `=` and a wire value. */
  predicate IsProperty(p: text) {
    var eq := Find(p, EQUALS);
    IsToken(p[..eq]) && (eq < |p| ==> IsWireValue(p[eq + 1..]))
  }

  lemma TokenIsPlain(t: text)
    requires IsToken(t)
    ensures Trimmed(t) && EQUALS !in t && COMMA !in t && SEMICOLON !in t
  {}

  lemma WireIsPlain(t: text)
    requires IsWireValue(t)
    ensures Trimmed(t) && COMMA !in t && SEMICOLON !in t
  {}

  lemma PropertyIsPlain(p: text)
    requires IsProperty(p)
    ensures p != [] && Trimmed(p) && COMMA !in p && SEMICOLON !in p
  {
    var eq := Find(p, EQUALS);
    TokenIsPlain(p[..eq]);
    assert p[0] == p[..eq][0];
    if eq < |p| {
      WireIsPlain(p[eq + 1..]);
      assert p == p[..eq] + [EQUALS] + p[eq + 1..];
      if eq + 1 < |p| { assert p[|p| - 1] == p[eq + 1..][|p| - eq - 2]; }
    } else {
      assert p[..eq] == p;
    }
  }

  lemma CanonIsProperty(property: text)
    requires CanonProperty(property).Some?
    ensures IsProperty(CanonProperty(property).value)
  {
    var eq := Find(property, EQUALS);
    var name := Trim(property[..eq]);
    var p := CanonProperty(property).value;
    TokenIsPlain(name);
    if eq < |property| {
      FindIs(p, EQUALS, |name|);
      assert p[..|name|] == name && p[|name| + 1..] == Trim(property[eq + 1..]);
    } else {
      FindIs(p, EQUALS, |p|);
      assert p[..|p|] == p;
    }
  }

  /** A stored property is already canonical. */
  lemma PropertyIsCanon(p: text)
    requires IsProperty(p)
    ensures CanonProperty(Trim(p)) == Some(p)
  {
    PropertyIsPlain(p);
    TrimTrimmed(p);
    var eq := Find(p, EQUALS);
    TokenIsPlain(p[..eq]);
    TrimTrimmed(p[..eq]);
    if eq < |p| {
      WireIsPlain(p[eq + 1..]);
      TrimTrimmed(p[eq + 1..]);
      assert p == p[..eq] + [EQUALS] + p[eq + 1..];
    } else {
      assert p[..eq] == p;
    }
  }

  predicate AllProperties(ps: seq<text>) { forall i :: 0 <= i < |ps| ==> IsProperty(ps[i]) }

  lemma {:induction false} CanonPiecesAre(pieces: seq<text>)
    requires CanonPieces(pieces).Some?
    ensures |CanonPieces(pieces).value| == |pieces| && AllProperties(CanonPieces(pieces).value)
  {
    hide CanonProperty, IsProperty;
    if pieces != [] {
      CanonIsProperty(Trim(pieces[0]));
      CanonPiecesAre(pieces[1..]);
    }
  }

  lemma {:induction false} CanonPiecesOfCanon(ps: seq<text>)
    requires AllProperties(ps)
    ensures CanonPieces(ps) == Some(ps)
  {
    hide CanonProperty, IsProperty;
    if ps != [] {
      PropertyIsCanon(ps[0]);
      CanonPiecesOfCanon(ps[1..]);
      assert [ps[0]] + ps[1..] == ps;
    }
  }

  /** A stored property tail: nothing, or properties joined by `;`. */
  ghost predicate IsTail(t: text) {
    t == [] || exists ps: seq<text> :: TailOf(t, ps)
  }

  predicate TailOf(t: text, ps: seq<text>) { ps != [] && AllProperties(ps) && t == Join(ps, SEMICOLON) }

  lemma {:induction false} TailIsPlain(ps: seq<text>)
    requires ps != [] && AllProperties(ps)
    ensures var t := Join(ps, SEMICOLON); t != [] && Trimmed(t) && COMMA !in t
  {
    hide IsProperty;
    PropertyIsPlain(ps[0]);
    if |ps| > 1 {
      TailIsPlain(ps[1..]);
      var rest := Join(ps[1..], SEMICOLON);
      var t := Join(ps, SEMICOLON);
      assert t == ps[0] + [SEMICOLON] + rest;
      assert t[|t| - 1] == rest[|rest| - 1] && t[0] == ps[0][0];
    }
  }

  /** What ParseProperties stores is a tail, and parsing a stored tail gives it back. */
  lemma ParsedTail(tail: text)
    requires ParseTail(tail).Some?
    ensures ParseTail(tail).value != [] && IsTail(ParseTail(tail).value)
  {
    hide IsProperty, CanonPieces;
    var ps := CanonPieces(Split(tail, SEMICOLON)).value;
    CanonPiecesAre(Split(tail, SEMICOLON));
    TailIsPlain(ps);
    assert TailOf(Join(ps, SEMICOLON), ps);
  }

  lemma TailRoundTrip(t: text)
    requires t != [] && IsTail(t)
    ensures ParseTail(t) == Some(t)
  {
    hide IsProperty, CanonPieces;
    var ps :| TailOf(t, ps);
    forall p | p in ps
      ensures SEMICOLON !in p
    {
      PropertyIsPlain(p);
    }
    SplitJoin(ps, SEMICOLON);
    CanonPiecesOfCanon(ps);
  }

  /** The tail made of the properties found so far and those still to come. */
  function Continue(done: seq<text>, rest: Option<seq<text>>): Option<text> {
    match rest case None => None case Some(ps) => Some(Join(done + ps, SEMICOLON))
  }

  lemma ContinueStep(done: seq<text>, rest: text, i: nat, p: Option<text>)
    requires i == Find(rest, SEMICOLON) && p == CanonProperty(Trim(rest[..i]))
    ensures p.None? ==> Continue(done, CanonPieces(Split(rest, SEMICOLON))) == None
    ensures p.Some? && i == |rest| ==>
              Continue(done, CanonPieces(Split(rest, SEMICOLON))) == Some(Join(done + [p.value], SEMICOLON))
    ensures p.Some? && i < |rest| ==>
              Continue(done, CanonPieces(Split(rest, SEMICOLON)))
              == Continue(done + [p.value], CanonPieces(Split(rest[i + 1..], SEMICOLON)))
  {
    hide CanonProperty, Join;
    var pieces := Split(rest, SEMICOLON);
    if i == |rest| {
      assert rest[..i] == rest && pieces == [rest] && pieces[1..] == [];
      if p.Some? {
        assert CanonPieces(pieces) == Some([p.value] + []);
        assert done + ([p.value] + []) == done + [p.value];
      }
    } else {
      assert pieces[1..] == Split(rest[i + 1..], SEMICOLON);
      var more := CanonPieces(pieces[1..]);
      if p.Some? && more.Some? { assert done + ([p.value] + more.value) == done + [p.value] + more.value; }
    }
  }

  /** The loop of ParseProperties, with AppendProperty's separator rule. */
  method ParseProperties(tail: text) returns (out: Option<text>)
    ensures out == ParseTail(tail)
  {
    hide CanonProperty, IsProperty, CanonPieces, Join;
    var rest := tail;
    var acc: text := [];
    ghost var done: seq<text> := [];
    ContinueStart(tail);
    while true
      invariant ParseTail(tail) == Continue(done, CanonPieces(Split(rest, SEMICOLON)))
      invariant AllProperties(done) && acc == Join(done, SEMICOLON)
      decreases |rest|
    {
      var semicolon := Find(rest, SEMICOLON);
      var p := CanonProperty(Trim(rest[..semicolon]));
      ContinueStep(done, rest, semicolon, p);
      if p.None? {
        return None;
      }
      CanonIsProperty(Trim(rest[..semicolon]));
      AddPiece(done, p.value);
      assert [] + p.value == p.value;
      if |acc| > 0 {
        acc := acc + [SEMICOLON];
      }
      acc := acc + p.value;
      done := done + [p.value];
      if semicolon == |rest| {
        return Some(acc);
      }
      rest := rest[semicolon + 1..];
    }
  }

  lemma ContinueStart(tail: text)
    ensures ParseTail(tail) == Continue([], CanonPieces(Split(tail, SEMICOLON)))
    ensures Join([], SEMICOLON) == []
  {
    hide CanonPieces;
    var ps := CanonPieces(Split(tail, SEMICOLON));
    if ps.Some? { assert [] + ps.value == ps.value; }
  }

  lemma AddPiece(ps: seq<text>, p: text)
    requires AllProperties(ps)
    ensures Join(ps + [p], SEMICOLON) == if Join(ps, SEMICOLON) == [] then p else Join(ps, SEMICOLON) + [SEMICOLON] + p
  {
    if ps == [] {
      assert ps + [p] == [p];
    } else {
      TailIsPlain(ps);
      JoinAppend(ps, p, SEMICOLON);
    }
  }

  // ---------------------------------------------------------------- Entries

  /** One list-member; memberBytes caches its serialised length. */
  datatype Entry = Entry(key: text, value: text, properties: text, memberBytes: nat)

  function MakeEntry(key: text, value: text, properties: text): Entry {
    Entry(key, value, properties,
          |key| + 1 + EncodedSize(value) + if properties == [] then 0 else 1 + |properties|)
  }

  /** An entry as the code builds it: a token key, a stored tail, the cached length right. */
  ghost predicate IsEntry(e: Entry) {
    IsToken(e.key) && IsTail(e.properties) && e == MakeEntry(e.key, e.value, e.properties)
  }

  function Tail(properties: text): text { if properties == [] then [] else [SEMICOLON] + properties }

  /** One member as ToHeader writes it. */
  function Member(e: Entry): text { e.key + [EQUALS] + Encode(e.value) + Tail(e.properties) }

  /** ParseMember */
  function ParseMember(member: text): Option<Entry> {
    var semicolon := Find(member, SEMICOLON);
    var head := member[..semicolon];
    var eq := Find(head, EQUALS);
    if eq == |head| then None else
    var key := Trim(head[..eq]);
    if !IsToken(key) then None else
    match Decode(Trim(head[eq + 1..]))
    case None => None
    case Some(value) =>
      if semicolon == |member| then Some(MakeEntry(key, value, [])) else
      match ParseTail(member[semicolon + 1..])
      case None => None
      case Some(properties) => Some(MakeEntry(key, value, properties))
  }

  lemma ParsedIsEntry(member: text)
    requires ParseMember(member).Some?
    ensures IsEntry(ParseMember(member).value)
  {
    hide IsToken, Decode, ParseTail, IsTail, EncodedSize;
    var semicolon := Find(member, SEMICOLON);
    NoTail();
    if semicolon < |member| { ParsedTail(member[semicolon + 1..]); }
  }

  lemma NoTail()
    ensures IsTail([])
  {}

  /** The part of a member before its properties. */
  function Head(e: Entry): text { e.key + [EQUALS] + Encode(e.value) }

  lemma HeadParts(e: Entry)
    requires IsEntry(e)
    ensures var head := Head(e);
            && |head| == |e.key| + 1 + EncodedSize(e.value)
            && head != [] && Trimmed(head) && COMMA !in head && SEMICOLON !in head
            && Find(head, EQUALS) == |e.key| && head[..|e.key|] == e.key && head[|e.key| + 1..] == Encode(e.value)
  {
    hide IsProperty, Encode, EncodedSize, IsTokenChar, IsTail, IsWireValue;
    var wire := Encode(e.value);
    EncodeIsWire(e.value);
    WireIsPlain(wire);
    KeyIsPlain(e.key);
    FindIs(Head(e), EQUALS, |e.key|);
    HeadIsTrimmed(e.key, wire);
  }

  lemma MemberParts(e: Entry)
    requires IsEntry(e)
    ensures var m, head := Member(e), Head(e);
            && |m| == e.memberBytes && m != [] && Trimmed(m) && COMMA !in m
            && Find(m, SEMICOLON) == |head| && m[..|head|] == head
            && (e.properties == [] <==> |m| == |head|)
            && (e.properties != [] ==> m[|head| + 1..] == e.properties)
  {
    hide IsProperty, EncodedSize, IsToken, Head, Encode, Member, Find, TailOf, Trimmed;
    HeadParts(e);
    MemberIs(e);
    if e.properties == [] {
      FindIs(Member(e), SEMICOLON, |Head(e)|);
    } else {
      StoredTailIsPlain(e.properties);
      AroundSemicolon(Head(e), e.properties);
    }
  }

  lemma StoredTailIsPlain(t: text)
    requires t != [] && IsTail(t)
    ensures Trimmed(t) && COMMA !in t
  {
    hide IsProperty, AllProperties, Join, Trimmed;
    var ps :| TailOf(t, ps);
    TailIsPlain(ps);
  }

  lemma AroundSemicolon(head: text, tail: text)
    requires head != [] && tail != [] && Trimmed(head) && Trimmed(tail)
    requires COMMA !in head && COMMA !in tail && SEMICOLON !in head
    ensures var m := head + [SEMICOLON] + tail;
            && m != [] && Trimmed(m) && COMMA !in m && Find(m, SEMICOLON) == |head|
            && m[..|head|] == head && m[|head| + 1..] == tail
  {
    var m := head + [SEMICOLON] + tail;
    FindIs(m, SEMICOLON, |head|);
    assert m[0] == head[0] && m[|m| - 1] == tail[|tail| - 1];
  }

  lemma MemberIs(e: Entry)
    ensures Member(e) == if e.properties == [] then Head(e) else Head(e) + [SEMICOLON] + e.properties
  {}

  lemma KeyIsPlain(key: text)
    requires IsToken(key)
    ensures key != [] && !IsOws(key[0]) && EQUALS !in key && COMMA !in key && SEMICOLON !in key
  {
    TokenIsPlain(key);
  }

  lemma HeadIsTrimmed(key: text, wire: text)
    requires key != [] && !IsOws(key[0]) && Trimmed(wire)
    ensures Trimmed(key + [EQUALS] + wire)
  {
    var t := key + [EQUALS] + wire;
    if wire != [] { assert t[|t| - 1] == wire[|wire| - 1]; }
  }

  /** Parsing a member that was written gives the entry back, opaque properties included. */
  lemma MemberRoundTrip(e: Entry)
    requires IsEntry(e)
    ensures ParseMember(Trim(Member(e))) == Some(e)
  {
    hide IsToken, Decode, Encode, ParseTail, IsTail, EncodedSize, Member, Head;
    MemberParts(e);
    HeadParts(e);
    TrimTrimmed(Member(e));
    KeyTrimmed(e.key);
    EncodedTrimmed(e.value);
    CodecRoundTrip(e.value);
    if e.properties != [] { TailRoundTrip(e.properties); }
  }

  lemma KeyTrimmed(key: text)
    requires IsToken(key)
    ensures Trim(key) == key
  {
    TokenIsPlain(key);
    TrimTrimmed(key);
  }

  lemma EncodedTrimmed(v: text)
    ensures Trim(Encode(v)) == Encode(v)
  {
    EncodeIsWire(v);
    WireIsPlain(Encode(v));
    TrimTrimmed(Encode(v));
  }

  // ---------------------------------------------------------------- Limits

  type Bag = seq<Entry>

  predicate Contains(bag: Bag, key: text) { exists i :: 0 <= i < |bag| && bag[i].key == key }

  function TotalWith(total: nat, count: nat, memberBytes: nat): nat {
    total + (if count == 0 then 0 else 1) + memberBytes
  }

  function SerialisedSize(bag: Bag): nat {
    if bag == [] then 0 else TotalWith(SerialisedSize(bag[..|bag| - 1]), |bag| - 1, bag[|bag| - 1].memberBytes)
  }

  datatype Admission = Accepted | Skipped | Stopped

  function Admit(e: Entry, bag: Bag, total: nat): Admission {
    if e.memberBytes > MAX_ENTRY_BYTES then Skipped
    else if Contains(bag, e.key) then Skipped
    else if |bag| >= MAX_ENTRIES then Stopped
    else if TotalWith(total, |bag|, e.memberBytes) > MAX_TOTAL_BYTES then Stopped
    else Accepted
  }

  /** What every baggage is: unique token keys, exact cached lengths, all three limits kept. */
  ghost predicate IsBaggage(bag: Bag) {
    && |bag| <= 180 && SerialisedSize(bag) <= 8192
    && (forall i :: 0 <= i < |bag| ==> IsEntry(bag[i]) && bag[i].memberBytes <= 4096)
    && UniqueKeys(bag)
  }

  predicate UniqueKeys(bag: Bag) { forall i, j :: 0 <= i < j < |bag| ==> bag[i].key != bag[j].key }

  // ---------------------------------------------------------------- FromHeader

  /** What one part of the header contributes, if anything. */
  function ParsePart(part: text): Option<Entry> {
    var member := Trim(part);
    if member == [] then None else ParseMember(member)
  }

  function ParseParts(parts: seq<text>, bag: Bag, total: nat): Bag
    decreases parts
  {
    if parts == [] then bag else
    match ParsePart(parts[0])
    case None => ParseParts(parts[1..], bag, total)
    case Some(e) =>
      match Admit(e, bag, total)
      case Stopped => bag
      case Skipped => ParseParts(parts[1..], bag, total)
      case Accepted => ParseParts(parts[1..], bag + [e], TotalWith(total, |bag|, e.memberBytes))
  }

  function FromHeader(header: text): Bag { ParseParts(Split(header, COMMA), [], 0) }

  lemma SizeOfAppend(bag: Bag, e: Entry)
    ensures SerialisedSize(bag + [e]) == TotalWith(SerialisedSize(bag), |bag|, e.memberBytes)
  {
    assert (bag + [e])[..|bag|] == bag;
  }

  lemma AdmittedIsBaggage(bag: Bag, e: Entry)
    requires IsBaggage(bag) && IsEntry(e) && Admit(e, bag, SerialisedSize(bag)) == Accepted
    ensures IsBaggage(bag + [e])
  {
    hide IsEntry, SerialisedSize;
    SizeOfAppend(bag, e);
  }

  lemma {:induction false} ParsePartsKeeps(parts: seq<text>, bag: Bag)
    requires IsBaggage(bag)
    ensures IsBaggage(ParseParts(parts, bag, SerialisedSize(bag)))
    decreases parts
  {
    hide IsBaggage, ParseMember, Admit, SerialisedSize;
    if parts != [] {
      ParsePartsKeeps(parts[1..], bag);
      var p := ParsePart(parts[0]);
      if p.Some? {
        ParsedIsEntry(Trim(parts[0]));
        if Admit(p.value, bag, SerialisedSize(bag)) == Accepted {
          AdmittedIsBaggage(bag, p.value);
          SizeOfAppend(bag, p.value);
          ParsePartsKeeps(parts[1..], bag + [p.value]);
        }
      }
    }
  }

  /** Whatever the header, the result keeps the grammar and the limits. */
  lemma FromHeaderIsBaggage(header: text)
    ensures IsBaggage(FromHeader(header))
  {
    ParsePartsKeeps(Split(header, COMMA), []);
  }

  // ---------------------------------------------------------------- ToHeader

  function Members(bag: Bag): (r: seq<text>)
    ensures |r| == |bag|
  {
    seq(|bag|, i requires 0 <= i < |bag| => Member(bag[i]))
  }

  function Header(bag: Bag): text { Join(Members(bag), COMMA) }

  /** The loop of ToHeader. */
  method ToHeader(bag: Bag) returns (header: text)
    requires IsBaggage(bag)
    ensures header == Header(bag)
  {
    hide Member, SerialisedSize;
    header := [];
    var i := 0;
    HeaderOfNone();
    assert bag[..0] == [];
    while i < |bag|
      invariant 0 <= i <= |bag|
      invariant header == Header(bag[..i])
    {
      var e := bag[i];
      HeaderStep(bag, i);
      if |header| > 0 {
        header := header + [COMMA];
      }
      ghost var base := header;
      header := header + e.key + [EQUALS];
      header := AppendEncoded(e.value, header);
      if |e.properties| > 0 {
        header := header + [SEMICOLON] + e.properties;
      }
      MemberWritten(base, e, header);
      i := i + 1;
    }
    assert bag[..|bag|] == bag;
  }

  lemma HeaderOfNone()
    ensures Header([]) == []
  {}

  lemma MemberWritten(base: text, e: Entry, header: text)
    requires header == base + e.key + [EQUALS] + Encode(e.value) + Tail(e.properties)
    ensures header == base + Member(e)
  {}

  lemma HeaderStep(bag: Bag, i: nat)
    requires AllEntries(bag) && i < |bag|
    ensures Header(bag[..i + 1]) == if i == 0 then Member(bag[i]) else Header(bag[..i]) + [COMMA] + Member(bag[i])
    ensures Header(bag[..i]) == [] <==> i == 0
  {
    hide Member, SerialisedSize, IsEntry;
    var ms := Members(bag[..i]);
    assert Members(bag[..i + 1]) == ms + [Member(bag[i])];
    if i > 0 {
      JoinAppend(ms, Member(bag[i]), COMMA);
      assert IsEntry(bag[0]);
      MemberParts(bag[0]);
      JoinNonEmpty(ms, COMMA);
    }
  }

  ghost predicate AllEntries(bag: Bag) { forall i :: 0 <= i < |bag| ==> IsEntry(bag[i]) }

  /** The cached lengths are exact: a header is as long as SerialisedSize says. */
  lemma {:induction false} AllEntriesLength(bag: Bag, k: nat)
    requires AllEntries(bag) && k <= |bag|
    ensures |Header(bag[..k])| == SerialisedSize(bag[..k])
    decreases k
  {
    hide Member, IsEntry;
    if k == 0 {
      HeaderOfNone();
    } else {
      AllEntriesLength(bag, k - 1);
      HeaderStep(bag, k - 1);
      assert IsEntry(bag[k - 1]);
      MemberParts(bag[k - 1]);
      assert bag[..k][..k - 1] == bag[..k - 1];
    }
  }

  lemma HeaderFits(bag: Bag)
    requires IsBaggage(bag)
    ensures |Header(bag)| == SerialisedSize(bag) <= 8192
  {
    AllEntriesLength(bag, |bag|);
    assert bag[..|bag|] == bag;
  }

  // ---------------------------------------------------------------- Round trip

  lemma {:induction false} ReadBack(bag: Bag, k: nat)
    requires IsBaggage(bag) && k <= |bag|
    ensures ParseParts(Members(bag)[k..], bag[..k], SerialisedSize(bag[..k])) == bag
    decreases |bag| - k
  {
    hide Member, IsEntry, ParseMember, IsBaggage;
    if k == |bag| {
      assert bag[..k] == bag;
    } else {
      var parts := Members(bag)[k..];
      assert parts[0] == Member(bag[k]) && parts[1..] == Members(bag)[k + 1..];
      PartReadBack(bag, k);
      AdmitReadBack(bag, k);
      assert bag[..k] + [bag[k]] == bag[..k + 1];
      SizeOfAppend(bag[..k], bag[k]);
      ReadBack(bag, k + 1);
    }
  }

  lemma PartReadBack(bag: Bag, k: nat)
    requires IsBaggage(bag) && k < |bag|
    ensures ParsePart(Member(bag[k])) == Some(bag[k])
  {
    hide Member, ParseMember, IsEntry;
    assert IsEntry(bag[k]);
    MemberParts(bag[k]);
    TrimTrimmed(Member(bag[k]));
    MemberRoundTrip(bag[k]);
  }

  lemma {:induction false} SizeGrows(bag: Bag, k: nat)
    requires k <= |bag|
    ensures SerialisedSize(bag[..k]) <= SerialisedSize(bag)
    decreases |bag| - k
  {
    if k == |bag| {
      assert bag[..k] == bag;
    } else {
      SizeGrows(bag, k + 1);
      SizeOfAppend(bag[..k], bag[k]);
      assert bag[..k] + [bag[k]] == bag[..k + 1];
    }
  }

  lemma AdmitReadBack(bag: Bag, k: nat)
    requires IsBaggage(bag) && k < |bag|
    ensures Admit(bag[k], bag[..k], SerialisedSize(bag[..k])) == Accepted
  {
    hide IsEntry, SerialisedSize;
    SizeGrows(bag, k + 1);
    SizeOfAppend(bag[..k], bag[k]);
    assert bag[..k] + [bag[k]] == bag[..k + 1];
  }

  /** Round trip: reading back what was written gives the same baggage, opaque properties included. */
  lemma HeaderRoundTrip(bag: Bag)
    requires IsBaggage(bag)
    ensures FromHeader(Header(bag)) == bag
  {
    hide Member, ParseMember, IsEntry;
    if bag == [] {
      HeaderOfNone();
      BlankRest([], 0);
    } else {
      forall p | p in Members(bag)
        ensures COMMA !in p
      {
        var i :| 0 <= i < |bag| && p == Member(bag[i]);
        assert IsEntry(bag[i]);
        MemberParts(bag[i]);
      }
      SplitJoin(Members(bag), COMMA);
      ReadBack(bag, 0);
      assert Members(bag)[0..] == Members(bag) && bag[..0] == [];
    }
  }

  // ---------------------------------------------------------------- Member isolation

  /** A part that costs only itself: blank, malformed, or too long once canonical. */
  predicate Inert(part: text) {
    ParsePart(part).None? || ParsePart(part).value.memberBytes > 4096
  }

  lemma {:induction false} InertPart(before: seq<text>, x: text, after: seq<text>, bag: Bag, total: nat)
    requires Inert(x)
    ensures ParseParts(before + [x] + after, bag, total) == ParseParts(before + after, bag, total)
    decreases before
  {
    hide ParsePart;
    var with, without := before + [x] + after, before + after;
    if before == [] {
      assert with[1..] == after && without == after;
    } else {
      assert with[1..] == before[1..] + [x] + after && without[1..] == before[1..] + after;
      InertPart(before[1..], x, after, bag, total);
      var p := ParsePart(before[0]);
      if p.Some? { InertPart(before[1..], x, after, bag + [p.value], TotalWith(total, |bag|, p.value.memberBytes)); }
    }
  }

  /** Member isolation: a bad member between two parts of any header never changes what the header means. */
  lemma MemberIsolation(left: text, x: text, right: text)
    requires COMMA !in x && Inert(x)
    ensures FromHeader(left + [COMMA] + x + [COMMA] + right) == FromHeader(left + [COMMA] + right)
  {
    hide ParseParts, Inert, Split;
    var whole := left + [COMMA] + x + [COMMA] + right;
    assert whole == left + [COMMA] + (x + [COMMA] + right);
    SplitConcat(left, x + [COMMA] + right, COMMA);
    SplitConcat(x, right, COMMA);
    SplitSingle(x, COMMA);
    SplitConcat(left, right, COMMA);
    assert Split(whole, COMMA) == Split(left, COMMA) + [x] + Split(right, COMMA);
    InertPart(Split(left, COMMA), x, Split(right, COMMA), [], 0);
  }

  /** A key that is already there when a part is reached makes the part inert, whatever its value. */
  lemma {:induction false} RepeatedPart(before: seq<text>, x: text, after: seq<text>, bag: Bag, total: nat)
    requires ParsePart(x).Some? && Contains(ParseParts(before, bag, total), ParsePart(x).value.key)
    ensures ParseParts(before + [x] + after, bag, total) == ParseParts(before + after, bag, total)
    decreases before
  {
    hide ParsePart;
    var with, without := before + [x] + after, before + after;
    if before == [] {
      assert with[1..] == after && without == after;
    } else {
      assert with[1..] == before[1..] + [x] + after && without[1..] == before[1..] + after;
      var p := ParsePart(before[0]);
      if p.None? || Admit(p.value, bag, total) == Skipped {
        RepeatedPart(before[1..], x, after, bag, total);
      } else if Admit(p.value, bag, total) == Accepted {
        RepeatedPart(before[1..], x, after, bag + [p.value], TotalWith(total, |bag|, p.value.memberBytes));
      }
    }
  }

  /** The first member with a key wins: a later one, anywhere, never changes what the header means. */
  lemma FirstMemberWins(left: text, x: text, right: text)
    requires COMMA !in x && ParsePart(x).Some? && Contains(FromHeader(left), ParsePart(x).value.key)
    ensures FromHeader(left + [COMMA] + x + [COMMA] + right) == FromHeader(left + [COMMA] + right)
  {
    hide ParseParts, ParsePart, Contains, Split;
    var whole := left + [COMMA] + x + [COMMA] + right;
    assert whole == left + [COMMA] + (x + [COMMA] + right);
    SplitConcat(left, x + [COMMA] + right, COMMA);
    SplitConcat(x, right, COMMA);
    SplitSingle(x, COMMA);
    SplitConcat(left, right, COMMA);
    assert Split(whole, COMMA) == Split(left, COMMA) + [x] + Split(right, COMMA);
    RepeatedPart(Split(left, COMMA), x, Split(right, COMMA), [], 0);
  }

  // ---------------------------------------------------------------- White space

  /** A member from its parts; no tail is another thing than an empty one. */
  function Assembled(key: text, value: text, tail: Option<text>): text {
    key + [EQUALS] + value + if tail.None? then [] else [SEMICOLON] + tail.value
  }

  /** What such a member means. */
  function Meaning(key: text, raw: text, tail: Option<text>): Option<Entry> {
    if !IsToken(key) then None else
    match Decode(raw)
    case None => None
    case Some(value) =>
      if tail.None? then Some(MakeEntry(key, value, [])) else
      match ParseTail(tail.value) case None => None case Some(properties) => Some(MakeEntry(key, value, properties))
  }

  lemma MemberMeans(key: text, value: text, tail: Option<text>)
    requires EQUALS !in key && SEMICOLON !in key && SEMICOLON !in value
    ensures ParseMember(Assembled(key, value, tail)) == Meaning(Trim(key), Trim(value), tail)
  {
    hide Trim, Decode, ParseTail, IsToken, MakeEntry, Find;
    var m, head := Assembled(key, value, tail), key + [EQUALS] + value;
    FindIs(m, SEMICOLON, |head|);
    FindIs(head, EQUALS, |key|);
    assert m[..|head|] == head && head[..|key|] == key && head[|key| + 1..] == value;
    if tail.Some? { assert m[|head| + 1..] == tail.value; }
  }

  lemma {:induction false} SamePieces(ps: seq<text>, qs: seq<text>)
    requires |ps| == |qs| && forall i :: 0 <= i < |ps| ==> CanonProperty(Trim(ps[i])) == CanonProperty(Trim(qs[i]))
    ensures CanonPieces(ps) == CanonPieces(qs)
  {
    hide CanonProperty, Trim;
    if ps != [] {
      assert CanonProperty(Trim(ps[0])) == CanonProperty(Trim(qs[0]));
      SamePieces(ps[1..], qs[1..]);
    }
  }

  /** Replacing a piece of a property tail by one that means the same makes no difference. */
  lemma SamePieceSameTail(ps: seq<text>, k: nat, q: text)
    requires k < |ps| && (forall p <- ps :: SEMICOLON !in p) && SEMICOLON !in q
    requires CanonProperty(Trim(q)) == CanonProperty(Trim(ps[k]))
    ensures ParseTail(Join(ps[k := q], SEMICOLON)) == ParseTail(Join(ps, SEMICOLON))
  {
    hide CanonPieces, CanonProperty, Split, Join, Trim;
    var qs := ps[k := q];
    forall x | x in qs
      ensures SEMICOLON !in x
    {
      var i :| 0 <= i < |qs| && qs[i] == x;
      assert i != k ==> ps[i] in ps;
    }
    SplitJoin(ps, SEMICOLON);
    SplitJoin(qs, SEMICOLON);
    SamePieces(ps, qs);
  }

  /** Padding around the name and the value of a property makes no difference. */
  lemma PropertyValuePadding(name: text, value: text, a: text, b: text, c: text, d: text)
    requires EQUALS !in name && AllOws(a) && AllOws(b) && AllOws(c) && AllOws(d)
    ensures CanonProperty(Trim(name + [EQUALS] + value))
         == CanonProperty(Trim((a + name + b) + [EQUALS] + (c + value + d)))
  {
    hide TrimLeft, TrimRight, CanonProperty, AllOws, Trim;
    PropertyMeans(name, value);
    assert EQUALS !in a + name + b by { BlankIsPlain(a); BlankIsPlain(b); }
    PropertyMeans(a + name + b, c + value + d);
    TrimPadded(a, name, b);
    TrimPadded(c, value, d);
  }

  lemma BlankIsPlain(a: text)
    requires AllOws(a)
    ensures EQUALS !in a && SEMICOLON !in a && COMMA !in a
  {}

  lemma PropertyMeans(name: text, value: text)
    requires EQUALS !in name
    ensures CanonProperty(Trim(name + [EQUALS] + value))
         == if !IsToken(Trim(name)) then None
            else if IsWireValue(Trim(value)) then Some(Trim(name) + [EQUALS] + Trim(value)) else None
  {
    hide IsToken, IsWireValue, TrimLeft, TrimRight, Find;
    var p := name + [EQUALS] + value;
    assert p == [] + [] + p;
    TrimAround(name, EQUALS, value);
    var t := TrimLeft(name) + [EQUALS] + TrimRight(value);
    assert EQUALS !in TrimLeft(name) by { TrimLeftParts(name); }
    FindIs(t, EQUALS, |TrimLeft(name)|);
    assert t[..|TrimLeft(name)|] == TrimLeft(name) && t[|TrimLeft(name)| + 1..] == TrimRight(value);
    TrimOfLeft(name);
    TrimOfRight(value);
  }

  lemma TailEnds(tail: text)
    ensures ParseTail(TrimRight(tail)) == ParseTail(tail)
  {
    hide ParseTail, TrimRight, AllOws;
    TrimRightParts(tail);
    var b := tail[|TrimRight(tail)|..];
    assert tail == TrimRight(tail) + b;
    TailPadded(TrimRight(tail), b);
  }

  lemma TailPadded(t: text, b: text)
    requires AllOws(b)
    ensures ParseTail(t + b) == ParseTail(t)
  {
    hide CanonPieces, CanonProperty, Join, Trim, Split, AllOws;
    BlankIsPlain(b);
    SplitLast(t, b, SEMICOLON);
    var ps := Split(t, SEMICOLON);
    var n := |ps| - 1;
    var qs := ps[n := ps[n] + b];
    NoBlank();
    TrimPadded([], ps[n], b);
    assert [] + ps[n] + b == ps[n] + b;
    SamePieces(ps, qs);
  }

  /** A part of a header, with its white space: what it means. */
  lemma PartMeans(key: text, value: text, tail: Option<text>)
    requires EQUALS !in key && SEMICOLON !in key && SEMICOLON !in value
    ensures ParsePart(Assembled(key, value, tail)) == Meaning(Trim(key), Trim(value), tail)
  {
    hide TrimLeft, TrimRight, Decode, ParseTail, IsToken, MakeEntry, Find, ParseMember, Trim;
    var k := TrimLeft(key);
    assert EQUALS !in k && SEMICOLON !in k by { TrimLeftParts(key); }
    TrimOfLeft(key);
    TrimOfRight(value);
    if tail.None? {
      var v := TrimRight(value);
      assert SEMICOLON !in v by { TrimRightParts(value); }
      assert Assembled(key, value, tail) == key + [EQUALS] + value;
      TrimAround(key, EQUALS, value);
      assert Trim(Assembled(key, value, tail)) == Assembled(k, v, tail);
      MemberMeans(k, v, tail);
    } else {
      var t := TrimRight(tail.value);
      var rest := value + [SEMICOLON] + tail.value;
      assert Assembled(key, value, tail) == key + [EQUALS] + rest;
      TrimAround(key, EQUALS, rest);
      TrimRightStops(value, SEMICOLON, tail.value);
      assert Trim(Assembled(key, value, tail)) == Assembled(k, value, Some(t));
      MemberMeans(k, value, Some(t));
      TailEnds(tail.value);
    }
  }

  /** Padding around the key and the value of a member makes no difference. */
  lemma MemberPadding(key: text, value: text, tail: Option<text>, a: text, b: text, c: text, d: text)
    requires EQUALS !in key && SEMICOLON !in key && SEMICOLON !in value
    requires AllOws(a) && AllOws(b) && AllOws(c) && AllOws(d)
    ensures ParsePart(Assembled(a + key + b, c + value + d, tail)) == ParsePart(Assembled(key, value, tail))
  {
    hide Trim, Meaning, ParsePart, Assembled, AllOws;
    BlankIsPlain(a);
    BlankIsPlain(b);
    BlankIsPlain(c);
    BlankIsPlain(d);
    TrimPadded(a, key, b);
    TrimPadded(c, value, d);
    PartMeans(key, value, tail);
    PartMeans(a + key + b, c + value + d, tail);
  }

  lemma PartPadding(a: text, part: text, b: text)
    requires AllOws(a) && AllOws(b)
    ensures ParsePart(a + part + b) == ParsePart(part)
  {
    hide Trim, ParseMember, AllOws;
    TrimPadded(a, part, b);
  }

  lemma {:induction false} SameParts(ps: seq<text>, qs: seq<text>, bag: Bag, total: nat)
    requires |ps| == |qs| && forall i :: 0 <= i < |ps| ==> ParsePart(ps[i]) == ParsePart(qs[i])
    ensures ParseParts(ps, bag, total) == ParseParts(qs, bag, total)
    decreases ps
  {
    hide ParsePart, Admit;
    if ps != [] {
      var p := ParsePart(ps[0]);
      assert p == ParsePart(qs[0]);
      SameParts(ps[1..], qs[1..], bag, total);
      if p.Some? { SameParts(ps[1..], qs[1..], bag + [p.value], TotalWith(total, |bag|, p.value.memberBytes)); }
    }
  }

  /** Replacing a part of a header by one that means the same does not change what the header means. */
  lemma SamePartSameHeader(ps: seq<text>, k: nat, q: text)
    requires k < |ps| && (forall p <- ps :: COMMA !in p) && COMMA !in q && ParsePart(q) == ParsePart(ps[k])
    ensures FromHeader(Join(ps[k := q], COMMA)) == FromHeader(Join(ps, COMMA))
  {
    hide ParsePart, ParseParts, Split, Join;
    var qs := ps[k := q];
    forall x | x in qs
      ensures COMMA !in x
    {
      var i :| 0 <= i < |qs| && qs[i] == x;
      assert i != k ==> ps[i] in ps;
    }
    SplitJoin(ps, COMMA);
    SplitJoin(qs, COMMA);
    SameParts(ps, qs, [], 0);
  }

  /** Spaces and tabs around any part of any header do not change what it means. */
  lemma HeaderPadding(ps: seq<text>, k: nat, a: text, b: text)
    requires k < |ps| && (forall p <- ps :: COMMA !in p) && AllOws(a) && AllOws(b)
    ensures FromHeader(Join(ps[k := a + ps[k] + b], COMMA)) == FromHeader(Join(ps, COMMA))
  {
    hide ParsePart, FromHeader, Join, AllOws;
    BlankIsPlain(a);
    BlankIsPlain(b);
    assert ps[k] in ps;
    PartPadding(a, ps[k], b);
    SamePartSameHeader(ps, k, a + ps[k] + b);
  }

  /** Nor do spaces and tabs around the key and the value of a member. */
  lemma HeaderMemberPadding(ps: seq<text>, k: nat, key: text, value: text, tail: Option<text>,
                            a: text, b: text, c: text, d: text)
    requires k < |ps| && (forall p <- ps :: COMMA !in p) && ps[k] == Assembled(key, value, tail)
    requires EQUALS !in key && SEMICOLON !in key && SEMICOLON !in value
    requires AllOws(a) && AllOws(b) && AllOws(c) && AllOws(d)
    ensures FromHeader(Join(ps[k := Assembled(a + key + b, c + value + d, tail)], COMMA))
         == FromHeader(Join(ps, COMMA))
  {
    hide ParsePart, FromHeader, Join, AllOws;
    var q := Assembled(a + key + b, c + value + d, tail);
    assert COMMA !in q by {
      assert ps[k] in ps;
      NoCommaInside(key, value, tail);
      BlankIsPlain(a);
      BlankIsPlain(b);
      BlankIsPlain(c);
      BlankIsPlain(d);
    }
    MemberPadding(key, value, tail, a, b, c, d);
    SamePartSameHeader(ps, k, q);
  }

  lemma NoCommaInside(key: text, value: text, tail: Option<text>)
    ensures COMMA !in Assembled(key, value, tail) <==>
              COMMA !in key && COMMA !in value && (tail.Some? ==> COMMA !in tail.value)
  {
    var m := Assembled(key, value, tail);
    assert forall i :: 0 <= i < |key| ==> m[i] == key[i];
    assert forall i :: 0 <= i < |value| ==> m[|key| + 1 + i] == value[i];
    if tail.Some? { assert forall i :: 0 <= i < |tail.value| ==> m[|key| + |value| + 2 + i] == tail.value[i]; }
  }

  /** Replacing a property by one that means the same does not change what the header means. */
  lemma SamePropertySameHeader(ps: seq<text>, k: nat, key: text, value: text, props: seq<text>, n: nat, q: text)
    requires k < |ps| && (forall p <- ps :: COMMA !in p) && n < |props| && (forall p <- props :: SEMICOLON !in p)
    requires ps[k] == Assembled(key, value, Some(Join(props, SEMICOLON)))
    requires EQUALS !in key && SEMICOLON !in key && SEMICOLON !in value && SEMICOLON !in q && COMMA !in q
    requires CanonProperty(Trim(q)) == CanonProperty(Trim(props[n]))
    ensures FromHeader(Join(ps[k := Assembled(key, value, Some(Join(props[n := q], SEMICOLON)))], COMMA))
         == FromHeader(Join(ps, COMMA))
  {
    hide ParsePart, FromHeader, Join, Assembled, Trim, CanonProperty;
    var props' := props[n := q];
    var t, t' := Join(props, SEMICOLON), Join(props', SEMICOLON);
    assert ps[k] in ps;
    NoCommaInside(key, value, Some(t));
    forall p | p in props'
      ensures COMMA !in p
    {
      var i :| 0 <= i < |props'| && props'[i] == p;
      if i != n && COMMA in p { JoinHolds(props, SEMICOLON, i, COMMA); }
    }
    JoinPlain(props', SEMICOLON, COMMA);
    NoCommaInside(key, value, Some(t'));
    SamePieceSameTail(props, n, q);
    PartMeans(key, value, Some(t));
    PartMeans(key, value, Some(t'));
    SameMeaning(Trim(key), Trim(value), t, t');
    SamePartSameHeader(ps, k, Assembled(key, value, Some(t')));
  }

  /** So spaces and tabs around a property, that is, around any `;`, do not change what the header means. */
  lemma HeaderPropertyPadding(ps: seq<text>, k: nat, key: text, value: text, props: seq<text>, n: nat, a: text, b: text)
    requires k < |ps| && (forall p <- ps :: COMMA !in p) && n < |props| && (forall p <- props :: SEMICOLON !in p)
    requires ps[k] == Assembled(key, value, Some(Join(props, SEMICOLON)))
    requires EQUALS !in key && SEMICOLON !in key && SEMICOLON !in value && AllOws(a) && AllOws(b)
    ensures FromHeader(Join(ps[k := Assembled(key, value, Some(Join(props[n := a + props[n] + b], SEMICOLON)))], COMMA))
         == FromHeader(Join(ps, COMMA))
  {
    hide FromHeader, Join, AllOws, Assembled, Trim, CanonProperty;
    var t := Join(props, SEMICOLON);
    assert ps[k] in ps && props[n] in props;
    NoCommaInside(key, value, Some(t));
    if COMMA in props[n] { JoinHolds(props, SEMICOLON, n, COMMA); }
    BlankIsPlain(a);
    BlankIsPlain(b);
    TrimPadded(a, props[n], b);
    SamePropertySameHeader(ps, k, key, value, props, n, a + props[n] + b);
  }

  lemma SameMeaning(key: text, raw: text, t: text, t': text)
    requires ParseTail(t) == ParseTail(t')
    ensures Meaning(key, raw, Some(t)) == Meaning(key, raw, Some(t'))
  {
    hide ParseTail, Decode, IsToken;
  }

  // ---------------------------------------------------------------- Where a header stops

  /** A member that would pass a limit ends the parse: nothing after it counts, however small. */
  lemma {:induction false} OverflowStops(before: seq<text>, x: text, after: seq<text>, bag: Bag, total: nat)
    requires IsBaggage(bag) && total == SerialisedSize(bag) && ParsePart(x).Some?
    requires var b, e := ParseParts(before, bag, total), ParsePart(x).value;
             && e.memberBytes <= MAX_ENTRY_BYTES && !Contains(b, e.key)
             && (|b| >= MAX_ENTRIES || TotalWith(SerialisedSize(b), |b|, e.memberBytes) > MAX_TOTAL_BYTES)
    ensures ParseParts(before + [x] + after, bag, total) == ParseParts(before, bag, total)
    decreases before
  {
    hide ParsePart, IsBaggage, SerialisedSize, Contains;
    var all := before + [x] + after;
    if before == [] {
      assert all[0] == x;
    } else {
      assert all[0] == before[0] && all[1..] == before[1..] + [x] + after;
      var p := ParsePart(before[0]);
      if p.None? || Admit(p.value, bag, total) == Skipped {
        OverflowStops(before[1..], x, after, bag, total);
      } else if Admit(p.value, bag, total) == Accepted {
        PartIsEntry(before[0]);
        AdmittedIsBaggage(bag, p.value);
        SizeOfAppend(bag, p.value);
        OverflowStops(before[1..], x, after, bag + [p.value], TotalWith(total, |bag|, p.value.memberBytes));
      }
    }
  }

  lemma PartIsEntry(part: text)
    requires ParsePart(part).Some?
    ensures IsEntry(ParsePart(part).value)
  {
    hide Trim, ParseMember, IsEntry;
    ParsedIsEntry(Trim(part));
  }

  /**
   Dropping from the end: a new, valid member of admissible size that would be the 181st, or would take the
   header past 8192 bytes, ends the header; whatever follows it is dropped with it.
   */
  lemma HeaderStopsAtLimit(left: text, x: text, right: text)
    requires COMMA !in x && ParsePart(x).Some?
    requires var b, e := FromHeader(left), ParsePart(x).value;
             && |Member(e)| <= 4096 && !Contains(b, e.key)
             && (|b| >= 180 || |Header(b + [e])| > 8192)
    ensures FromHeader(left + [COMMA] + x + [COMMA] + right) == FromHeader(left)
  {
    hide ParseParts, ParsePart, Contains, Split, Member, Header, SerialisedSize, IsBaggage;
    var b, e := FromHeader(left), ParsePart(x).value;
    FromHeaderIsBaggage(left);
    PartIsEntry(x);
    MemberParts(e);
    EntriesHeader(b, e);
    var whole := left + [COMMA] + x + [COMMA] + right;
    assert whole == left + [COMMA] + (x + [COMMA] + right);
    SplitConcat(left, x + [COMMA] + right, COMMA);
    SplitConcat(x, right, COMMA);
    SplitSingle(x, COMMA);
    assert Split(whole, COMMA) == Split(left, COMMA) + [x] + Split(right, COMMA);
    EmptyIsBaggage();
    NoSize();
    OverflowStops(Split(left, COMMA), x, Split(right, COMMA), [], 0);
  }

  lemma NoSize()
    ensures SerialisedSize([]) == 0
  {}

  /** The length of a header with one more entry, by the cached lengths. */
  lemma EntriesHeader(bag: Bag, e: Entry)
    requires IsBaggage(bag) && IsEntry(e)
    ensures |Header(bag + [e])| == SerialisedSize(bag + [e]) == TotalWith(SerialisedSize(bag), |bag|, e.memberBytes)
  {
    hide Member, IsEntry, SerialisedSize;
    var all := bag + [e];
    SizeOfAppend(bag, e);
    AllEntriesLength(all, |all|);
    assert all[..|all|] == all;
  }

  // ---------------------------------------------------------------- The parser's loop

  /** ParseMembers: one pass over the header with a running total. */
  method ParseMembers(header: text) returns (entries: Bag)
    ensures entries == FromHeader(header) && IsBaggage(entries)
  {
    hide ParseMember, IsBaggage, SerialisedSize;
    FromHeaderIsBaggage(header);
    entries := [];
    var total := 0;
    var rest := header;
    while |rest| > 0
      invariant FromHeader(header) == ParseParts(Split(rest, COMMA), entries, total)
      decreases |rest|
    {
      var comma := Find(rest, COMMA);
      ghost var parts := Split(rest, COMMA);
      var member := Trim(rest[..comma]);
      SplitFirst(rest, COMMA);
      rest := if comma == |rest| then [] else rest[comma + 1..];
      BlankRest(entries, total);
      var entry := if member == [] then None else ParseMember(member);
      if entry.None? {
        continue;
      }
      var verdict := Admit(entry.value, entries, total);
      if verdict == Stopped {
        return;
      }
      if verdict == Skipped {
        continue;
      }
      BlankRest(entries + [entry.value], TotalWith(total, |entries|, entry.value.memberBytes));
      total := TotalWith(total, |entries|, entry.value.memberBytes);
      entries := entries + [entry.value];
    }
    BlankRest(entries, total);
  }

  /** An empty rest holds no member. */
  lemma BlankRest(bag: Bag, total: nat)
    ensures ParseParts(Split([], COMMA), bag, total) == bag && ParseParts([], bag, total) == bag
  {
    assert Split([], COMMA) == [[]];
  }

  // ---------------------------------------------------------------- Get, Set, Erase

  /** Where the entry with this key is, or the end. */
  function IndexOf(bag: Bag, key: text): (i: nat)
    ensures i <= |bag|
    ensures i < |bag| ==> bag[i].key == key
    ensures forall j :: 0 <= j < i ==> bag[j].key != key
  {
    if bag == [] || bag[0].key == key then 0 else 1 + IndexOf(bag[1..], key)
  }

  function Get(bag: Bag, key: text): Option<text> {
    var i := IndexOf(bag, key);
    if i < |bag| then Some(bag[i].value) else None
  }

  function Put(bag: Bag, e: Entry): Bag {
    var i := IndexOf(bag, e.key);
    if i < |bag| then bag[i := e] else bag + [e]
  }

  predicate SetRefused(bag: Bag, key: text, value: text) {
    var e := MakeEntry(key, value, []);
    || !IsToken(key) || (Get(bag, key).None? && |bag| >= MAX_ENTRIES)
    || e.memberBytes > MAX_ENTRY_BYTES || SerialisedSize(Put(bag, e)) > MAX_TOTAL_BYTES
  }

  function Set(bag: Bag, key: text, value: text): Bag {
    if SetRefused(bag, key, value) then bag else Put(bag, MakeEntry(key, value, []))
  }

  /** The entries with any other key, in order: what Erase keeps. */
  function Erase(bag: Bag, key: text): Bag {
    if bag == [] then [] else
    var last := bag[|bag| - 1];
    Erase(bag[..|bag| - 1], key) + if last.key == key then [] else [last]
  }

  /** Set keeps every invariant; an accepted value is there, in place or at the end, and no other entry changes. */
  lemma SetIsBaggage(bag: Bag, key: text, value: text)
    requires IsBaggage(bag)
    ensures var b := Set(bag, key, value);
            && IsBaggage(b)
            && (!SetRefused(bag, key, value) ==> Get(b, key) == Some(value))
            && (forall k :: k != key ==> Get(b, k) == Get(bag, k))
            && |bag| <= |b|
            && (forall i :: 0 <= i < |bag| ==> b[i].key == bag[i].key && (b[i] != bag[i] ==> b[i].key == key))
  {
    hide SerialisedSize;
    var b := Set(bag, key, value);
    NoTail();
    if !SetRefused(bag, key, value) {
      IndexIs(b, key, IndexOf(bag, key));
    }
    forall k | k != key
      ensures Get(b, k) == Get(bag, k)
    {
      if b != bag { OtherIndex(bag, MakeEntry(key, value, []), k); }
    }
  }

  /** The bag Set would make: the entry in place of the one with its key, or at the end. */
  predicate Replaces(bag: Bag, e: Entry, b: Bag) {
    if exists i :: 0 <= i < |bag| && bag[i].key == e.key
    then exists i :: 0 <= i < |bag| && bag[i].key == e.key && b == bag[i := e]
    else b == bag + [e]
  }

  /**
   Set is refused exactly for a key that is no token, a 181st key, a member over 4096 bytes or a header
   over 8192, the last two measured on what would be written.
   */
  lemma SetRefusedExactly(bag: Bag, key: text, value: text)
    requires IsBaggage(bag)
    ensures var e := MakeEntry(key, value, []);
            && Replaces(bag, e, Put(bag, e))
            && (SetRefused(bag, key, value) <==>
                  || !IsToken(key) || (!Contains(bag, key) && |bag| >= 180)
                  || |key| + 1 + |Encode(value)| > 4096 || |Header(Put(bag, e))| > 8192)
    ensures SetRefused(bag, key, value) ==> Set(bag, key, value) == bag
  {
    hide SerialisedSize, Member, Header, IsToken, IsEntry, Encode;
    var e := MakeEntry(key, value, []);
    EncodeIsWire(value);
    PutReplaces(bag, e);
    if IsToken(key) {
      assert IsEntry(e) by { FreshEntry(key, value); }
      var b := Put(bag, e);
      assert AllEntries(b);
      AllEntriesLength(b, |b|);
      assert b[..|b|] == b;
    }
  }

  lemma FreshEntry(key: text, value: text)
    requires IsToken(key)
    ensures IsEntry(MakeEntry(key, value, []))
  {
    NoTail();
  }

  lemma PutReplaces(bag: Bag, e: Entry)
    ensures Replaces(bag, e, Put(bag, e))
    ensures Get(bag, e.key).None? <==> !Contains(bag, e.key)
  {
    var i := IndexOf(bag, e.key);
    if i < |bag| { assert bag[i].key == e.key; }
  }

  lemma IndexIs(bag: Bag, key: text, i: nat)
    requires i <= |bag| && (forall j :: 0 <= j < i ==> bag[j].key != key) && (i < |bag| ==> bag[i].key == key)
    ensures IndexOf(bag, key) == i
  {
    var f := IndexOf(bag, key);
  }

  lemma OtherIndex(bag: Bag, e: Entry, k: text)
    requires k != e.key
    ensures Get(Put(bag, e), k) == Get(bag, k)
  {
    var i := IndexOf(bag, k);
    var b := Put(bag, e);
    IndexIs(b, k, if i < |bag| then i else |b|);
  }

  lemma GetAppend(bag: Bag, e: Entry, k: text)
    ensures Get(bag + [e], k) == if Get(bag, k).Some? then Get(bag, k) else if e.key == k then Some(e.value) else None
  {
    var i := IndexOf(bag, k);
    IndexIs(bag + [e], k, if i < |bag| || e.key == k then i else i + 1);
  }

  lemma {:induction false} EraseGet(bag: Bag, key: text, k: text)
    ensures Get(Erase(bag, key), k) == if k == key then None else Get(bag, k)
  {
    hide Get;
    if bag == [] {
      GetNone(k);
    } else {
      var init, last := bag[..|bag| - 1], bag[|bag| - 1];
      assert bag == init + [last];
      EraseGet(init, key, k);
      GetAppend(init, last, k);
      GetAppend(Erase(init, key), last, k);
      assert Erase(init, key) + [] == Erase(init, key);
    }
  }

  lemma GetNone(k: text)
    ensures Get([], k) == None
  {}

  lemma {:induction false} EraseSize(bag: Bag, key: text)
    ensures SerialisedSize(Erase(bag, key)) <= SerialisedSize(bag) && |Erase(bag, key)| <= |bag|
  {
    if bag != [] {
      var init, last := bag[..|bag| - 1], bag[|bag| - 1];
      var kept := Erase(init, key);
      EraseSize(init, key);
      if last.key == key {
        assert kept + [] == kept;
      } else {
        SizeOfAppend(kept, last);
      }
    }
  }

  lemma {:induction false} EraseEntries(bag: Bag, key: text)
    requires UniqueKeys(bag)
    ensures UniqueKeys(Erase(bag, key))
    ensures forall e :: e in Erase(bag, key) <==> e in bag && e.key != key
  {
    if bag != [] {
      var init, last := bag[..|bag| - 1], bag[|bag| - 1];
      EraseEntries(init, key);
      assert bag == init + [last];
    }
  }

  /** Erase keeps every invariant; the key is gone and no other entry changes. */
  lemma EraseIsBaggage(bag: Bag, key: text)
    requires IsBaggage(bag)
    ensures IsBaggage(Erase(bag, key))
    ensures Get(Erase(bag, key), key) == None
    ensures forall k :: k != key ==> Get(Erase(bag, key), k) == Get(bag, k)
  {
    hide IsEntry, SerialisedSize, Erase, Get;
    EraseEntries(bag, key);
    EraseSize(bag, key);
    forall k
      ensures Get(Erase(bag, key), k) == if k == key then None else Get(bag, k)
    {
      EraseGet(bag, key, k);
    }
    forall i | 0 <= i < |Erase(bag, key)|
      ensures IsEntry(Erase(bag, key)[i]) && Erase(bag, key)[i].memberBytes <= 4096
    {
      assert Erase(bag, key)[i] in Erase(bag, key);
    }
  }

  /** Erasing removes one entry and leaves the others where they stood. */
  lemma {:induction false} EraseKeepsOrder(bag: Bag, i: nat)
    requires UniqueKeys(bag) && i < |bag|
    ensures Erase(bag, bag[i].key) == bag[..i] + bag[i + 1..]
    decreases |bag|
  {
    var n := |bag| - 1;
    var init := bag[..n];
    if i == n {
      EraseAbsent(init, bag[i].key);
      assert init + [] == bag[..i] + bag[i + 1..];
    } else {
      EraseKeepsOrder(init, i);
      assert init[..i] == bag[..i] && init[i + 1..] == bag[i + 1..n];
      assert bag[..i] + bag[i + 1..n] + [bag[n]] == bag[..i] + bag[i + 1..];
    }
  }

  /** The loop of Baggage::Erase, with its early return for an absent key. */
  method EraseEntry(bag: Bag, key: text) returns (entries: Bag)
    requires IsBaggage(bag)
    ensures entries == Erase(bag, key)
  {
    hide IsEntry, SerialisedSize;
    assert bag[..|bag|] == bag;
    if Get(bag, key).None? {
      EraseAbsent(bag, key);
      return bag;
    }
    entries := [];
    for i := 0 to |bag|
      invariant entries == Erase(bag[..i], key)
    {
      assert bag[..i + 1][..i] == bag[..i];
      if bag[i].key != key {
        entries := entries + [bag[i]];
      }
    }
  }

  lemma {:induction false} EraseAbsent(bag: Bag, key: text)
    requires forall i :: 0 <= i < |bag| ==> bag[i].key != key
    ensures Erase(bag, key) == bag
  {
    if bag != [] {
      EraseAbsent(bag[..|bag| - 1], key);
      assert bag == bag[..|bag| - 1] + [bag[|bag| - 1]];
    }
  }

  // ---------------------------------------------------------------- Every reachable baggage

  datatype Op = Parse(header: text) | SetOp(key: text, value: text) | EraseOp(ekey: text)

  function Apply(bag: Bag, op: Op): Bag {
    match op
    case Parse(h) => FromHeader(h)
    case SetOp(k, v) => Set(bag, k, v)
    case EraseOp(k) => Erase(bag, k)
  }

  function Reach(ops: seq<Op>): Bag {
    if ops == [] then [] else Apply(Reach(ops[..|ops| - 1]), ops[|ops| - 1])
  }

  /** Every baggage reachable through FromHeader, Set and Erase keeps the limits and survives a round trip. */
  lemma {:induction false} ReachableRoundTrip(ops: seq<Op>)
    ensures IsBaggage(Reach(ops))
    ensures |Header(Reach(ops))| == SerialisedSize(Reach(ops)) <= 8192
    ensures FromHeader(Header(Reach(ops))) == Reach(ops)
  {
    hide IsBaggage, FromHeader, Set, Erase, Header, SerialisedSize;
    if ops == [] {
      EmptyIsBaggage();
    } else {
      ReachableRoundTrip(ops[..|ops| - 1]);
      var b := Reach(ops[..|ops| - 1]);
      match ops[|ops| - 1] {
        case Parse(h) => FromHeaderIsBaggage(h);
        case SetOp(k, v) => SetIsBaggage(b, k, v);
        case EraseOp(k) => EraseIsBaggage(b, k);
      }
    }
    HeaderFits(Reach(ops));
    HeaderRoundTrip(Reach(ops));
  }

  lemma EmptyIsBaggage()
    ensures IsBaggage([])
  {}
}
