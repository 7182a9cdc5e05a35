/**
 The W3C trace-context propagator (section 3.2 of W3C Trace Context): lower-case hex, the
 traceparent header, and injection into and extraction from a carrier of headers.
 */
module Propagator {
  import opened Basics
  import opened Text
  import TraceState

  // ---------------------------------------------------------------- Lower-case hex

  predicate IsLowerHex(c: byte) { IsDigit(c) || 0x61 <= c <= 0x66 }

  function HexDigitValue(c: byte): (v: nat)
    ensures v < 16
  {
    if IsDigit(c) then c - 0x30 else if IsLowerHex(c) then c - 0x61 + 10 else 0
  }

  function NibbleToHex(n: nat): (c: byte)
    requires n < 16
    ensures IsLowerHex(c) && HexDigitValue(c) == n
  {
    if n < 10 then 0x30 + n else 0x61 + n - 10
  }

  lemma NibbleOfDigit(c: byte)
    requires IsLowerHex(c)
    ensures NibbleToHex(HexDigitValue(c)) == c
  {}

  predicate AllLowerHex(t: text) { forall i :: 0 <= i < |t| ==> IsLowerHex(t[i]) }

  function HexOf(bytes: text): (t: text)
    ensures |t| == 2 * |bytes|
  {
    if bytes == [] then [] else [NibbleToHex(bytes[0] / 16), NibbleToHex(bytes[0] % 16)] + HexOf(bytes[1..])
  }

  /** The bytes that lower-case hex text stands for. */
  function BytesOf(hex: text): (b: text)
    ensures |b| == |hex| / 2
  {
    if |hex| < 2 then [] else [16 * HexDigitValue(hex[0]) + HexDigitValue(hex[1])] + BytesOf(hex[2..])
  }

  /** Reading undoes printing. */
  lemma {:induction false} HexRoundTrip(bytes: text)
    ensures AllLowerHex(HexOf(bytes)) && BytesOf(HexOf(bytes)) == bytes
  {
    if bytes != [] {
      var hex := HexOf(bytes);
      HexRoundTrip(bytes[1..]);
      assert hex[2..] == HexOf(bytes[1..]);
      assert bytes == [bytes[0]] + bytes[1..];
    }
  }

  /** And printing undoes reading: lower-case hex has one spelling. */
  lemma {:induction false} HexIsCanonical(hex: text)
    requires AllLowerHex(hex) && |hex| % 2 == 0
    ensures HexOf(BytesOf(hex)) == hex
  {
    hide BytesOf, HexOf, HexDigitValue, NibbleToHex, IsLowerHex;
    if hex == [] {
      assert hex == hex[..0];
      NoBytes(hex);
      NoHex();
    } else {
      HexIsCanonical(hex[2..]);
      FirstByte(hex);
      PrintedByte(hex[0], hex[1]);
      FirstHex(16 * HexDigitValue(hex[0]) + HexDigitValue(hex[1]), BytesOf(hex[2..]));
      assert hex == [hex[0], hex[1]] + hex[2..];
    }
  }

  lemma NoHex()
    ensures HexOf([]) == []
  {}

  lemma FirstHex(b: byte, rest: text)
    ensures HexOf([b] + rest) == [NibbleToHex(b / 16), NibbleToHex(b % 16)] + HexOf(rest)
  {
    hide NibbleToHex;
    assert ([b] + rest)[1..] == rest;
  }

  lemma PrintedByte(high: byte, low: byte)
    requires IsLowerHex(high) && IsLowerHex(low)
    ensures var b := 16 * HexDigitValue(high) + HexDigitValue(low);
            b < 256 && NibbleToHex(b / 16) == high && NibbleToHex(b % 16) == low
  {
    NibbleOfDigit(high);
    NibbleOfDigit(low);
  }

  /** The loop of BytesToLowerHex. */
  method BytesToLowerHex(bytes: text) returns (out: text)
    ensures out == HexOf(bytes)
  {
    out := [];
    assert bytes[0..] == bytes;
    for i := 0 to |bytes|
      invariant out + HexOf(bytes[i..]) == HexOf(bytes)
    {
      assert bytes[i..][1..] == bytes[i + 1..];
      var high, low := NibbleToHex(bytes[i] / 16), NibbleToHex(bytes[i] % 16);
      assert out + ([high, low] + HexOf(bytes[i + 1..])) == out + [high, low] + HexOf(bytes[i + 1..]);
      out := out + [high];
      out := out + [low];
    }
  }

  /** ParseLowerHexBytes fills a fixed-width array; on false it is partly written. */
  method ParseLowerHexBytes(hex: text, out: array<byte>) returns (ok: bool)
    modifies out
    ensures ok == (|hex| == 2 * out.Length && AllLowerHex(hex))
    ensures ok ==> out[..] == BytesOf(hex)
  {
    hide IsLowerHex, AllLowerHex, BytesOf, HexDigitValue;
    if |hex| != 2 * out.Length {
      return false;
    }
    NoBytes(hex);
    assert hex[..0] == [];
    for i := 0 to out.Length
      invariant AllLowerHex(hex[..2 * i]) && out[..i] == BytesOf(hex[..2 * i])
    {
      var high, low := hex[2 * i], hex[2 * i + 1];
      NextByte(hex, i);
      if !IsLowerHex(high) || !IsLowerHex(low) {
        return false;
      }
      out[i] := 16 * HexDigitValue(high) + HexDigitValue(low);
      assert out[..i + 1] == out[..i] + [out[i]];
    }
    assert hex[..2 * out.Length] == hex;
    ok := true;
  }

  lemma NoBytes(hex: text)
    ensures AllLowerHex(hex[..0]) && BytesOf(hex[..0]) == []
  {}

  lemma NextByte(hex: text, i: nat)
    requires 2 * i + 1 < |hex| && AllLowerHex(hex[..2 * i])
    ensures AllLowerHex(hex[..2 * (i + 1)]) <==> IsLowerHex(hex[2 * i]) && IsLowerHex(hex[2 * i + 1])
    ensures AllLowerHex(hex) ==> IsLowerHex(hex[2 * i]) && IsLowerHex(hex[2 * i + 1])
    ensures BytesOf(hex[..2 * (i + 1)])
            == BytesOf(hex[..2 * i]) + [16 * HexDigitValue(hex[2 * i]) + HexDigitValue(hex[2 * i + 1])]
  {
    hide IsLowerHex, HexDigitValue;
    var two := hex[2 * i..2 * i + 2];
    assert hex[..2 * (i + 1)] == hex[..2 * i] + two;
    BytesOfSum(hex[..2 * i], two);
    assert BytesOf(two[2..]) == [];
  }

  lemma {:induction false} BytesOfSum(a: text, b: text)
    requires |a| % 2 == 0
    ensures BytesOf(a + b) == BytesOf(a) + BytesOf(b)
  {
    hide IsLowerHex, HexDigitValue, BytesOf;
    if a == [] {
      assert a + b == b;
      assert a == a[..0];
      NoBytes(a);
    } else {
      FirstByte(a);
      FirstByte(a + b);
      assert (a + b)[0] == a[0] && (a + b)[1] == a[1] && (a + b)[2..] == a[2..] + b;
      BytesOfSum(a[2..], b);
    }
  }

  lemma FirstByte(hex: text)
    requires |hex| >= 2
    ensures BytesOf(hex) == [16 * HexDigitValue(hex[0]) + HexDigitValue(hex[1])] + BytesOf(hex[2..])
  {
    hide HexDigitValue;
  }

  // ---------------------------------------------------------------- The traceparent header

  const TRACE_ID_AT := 3
  const SPAN_ID_AT := 36
  const FLAGS_AT := 53
  const TRACEPARENT_CHARS := 55

  datatype Context = Context(traceId: text, spanId: text, flags: byte, state: TraceState.State, remote: bool)

  function Zeros(n: nat): text { seq(n, _ => 0) }

  /** A default-constructed context: all-zero ids, nothing else. */
  function Invalid(): Context { Context(Zeros(16), Zeros(8), 0, [], false) }

  predicate NonZero(id: text) { exists i :: 0 <= i < |id| && id[i] != 0 }

  /** IsValid, with the widths the id types fix. */
  predicate IsContext(c: Context) { |c.traceId| == 16 && |c.spanId| == 8 }
  predicate IsValid(c: Context) { NonZero(c.traceId) && NonZero(c.spanId) }

  datatype Parent = Parent(traceId: text, spanId: text, flags: byte)

  function Version(h: text): text requires |h| >= TRACEPARENT_CHARS { h[..2] }
  function TraceHex(h: text): text requires |h| >= TRACEPARENT_CHARS { h[TRACE_ID_AT..35] }
  function SpanHex(h: text): text requires |h| >= TRACEPARENT_CHARS { h[SPAN_ID_AT..52] }
  function FlagsHex(h: text): text requires |h| >= TRACEPARENT_CHARS { h[FLAGS_AT..TRACEPARENT_CHARS] }

  const ZERO_ZERO: text := [0x30, 0x30]
  const FF: text := [0x66, 0x66]

  /** What section 3.2 asks of the text: separators, version, and what may follow the flags. */
  predicate WellShaped(h: text) {
    && |h| >= TRACEPARENT_CHARS && h[2] == DASH && h[35] == DASH && h[52] == DASH
    && AllLowerHex(Version(h)) && Version(h) != FF
    && (|h| == TRACEPARENT_CHARS || (Version(h) != ZERO_ZERO && h[TRACEPARENT_CHARS] == DASH))
  }

  predicate HexFields(h: text)
    requires |h| >= TRACEPARENT_CHARS
  {
    AllLowerHex(TraceHex(h)) && AllLowerHex(SpanHex(h)) && AllLowerHex(FlagsHex(h))
  }

  predicate Accepted(h: text) {
    && WellShaped(h) && HexFields(h)
    && NonZero(BytesOf(TraceHex(h))) && NonZero(BytesOf(SpanHex(h)))
  }

  function ParentOf(h: text): (p: Parent)
    requires Accepted(h)
    ensures |p.traceId| == 16 && |p.spanId| == 8 && NonZero(p.traceId) && NonZero(p.spanId)
  {
    Parent(BytesOf(TraceHex(h)), BytesOf(SpanHex(h)), BytesOf(FlagsHex(h))[0])
  }

  lemma VersionByte(v: text)
    requires |v| == 2 && AllLowerHex(v)
    ensures BytesOf(v)[0] == 0xFF <==> v == FF
    ensures BytesOf(v)[0] == 0 <==> v == ZERO_ZERO
  {
    assert v == [v[0], v[1]];
  }

  method HasParsableShape(h: text) returns (ok: bool)
    ensures ok == WellShaped(h)
  {
    if |h| < TRACEPARENT_CHARS {
      return false;
    }
    if !(h[2] == DASH && h[35] == DASH && h[52] == DASH) {
      return false;
    }
    var version := new byte[1];
    var parsed := ParseLowerHexBytes(h[..2], version);
    if !parsed {
      return false;
    }
    VersionByte(h[..2]);
    assert version[..][0] == version[0];
    if version[0] == 0xFF {
      return false;
    }
    ok := |h| == TRACEPARENT_CHARS || (version[0] != 0 && h[TRACEPARENT_CHARS] == DASH);
  }

  method IsNonZero(id: array<byte>) returns (r: bool)
    ensures r == NonZero(id[..])
  {
    r := false;
    for i := 0 to id.Length
      invariant r == exists j :: 0 <= j < i && id[j] != 0
    {
      r := r || id[i] != 0;
    }
  }

  /** ParseTraceparent */
  method ParseTraceparent(h: text) returns (parent: Option<Parent>)
    ensures parent == if Accepted(h) then Some(ParentOf(h)) else None
  {
    hide WellShaped, BytesOf, AllLowerHex, NonZero;
    var shape := HasParsableShape(h);
    if !shape {
      return None;
    }
    assert |h| >= TRACEPARENT_CHARS by { ShapeLength(h); }
    var traceBytes, spanBytes, flags := new byte[16], new byte[8], new byte[1];
    var ok1 := ParseLowerHexBytes(h[TRACE_ID_AT..35], traceBytes);
    if !ok1 { return None; }
    var ok2 := ParseLowerHexBytes(h[SPAN_ID_AT..52], spanBytes);
    if !ok2 { return None; }
    var ok3 := ParseLowerHexBytes(h[FLAGS_AT..TRACEPARENT_CHARS], flags);
    if !ok3 { return None; }
    var traceValid := IsNonZero(traceBytes);
    var spanValid := IsNonZero(spanBytes);
    if !traceValid || !spanValid {
      return None;
    }
    assert flags[..][0] == flags[0];
    parent := Some(Parent(traceBytes[..], spanBytes[..], flags[0]));
  }

  lemma ShapeLength(h: text)
    requires WellShaped(h)
    ensures |h| >= TRACEPARENT_CHARS
  {}

  function Traceparent(c: Context): (h: text)
    requires IsContext(c)
    ensures |h| == TRACEPARENT_CHARS
  {
    ZERO_ZERO + [DASH] + HexOf(c.traceId) + [DASH] + HexOf(c.spanId) + [DASH] + HexOf([c.flags])
  }

  /** FormatTraceparent */
  method FormatTraceparent(c: Context) returns (h: text)
    requires IsContext(c)
    ensures h == Traceparent(c)
  {
    h := ZERO_ZERO + [DASH];
    var trace := BytesToLowerHex(c.traceId);
    var span := BytesToLowerHex(c.spanId);
    h := h + trace + [DASH] + span + [DASH];
    assert HexOf([c.flags]) == [NibbleToHex(c.flags / 16), NibbleToHex(c.flags % 16)] + HexOf([]);
    h := h + [NibbleToHex(c.flags / 16)] + [NibbleToHex(c.flags % 16)];
  }

  lemma Fields(c: Context)
    requires IsContext(c)
    ensures var h := Traceparent(c);
            && h[2] == h[35] == h[52] == DASH && Version(h) == ZERO_ZERO && TraceHex(h) == HexOf(c.traceId)
            && SpanHex(h) == HexOf(c.spanId) && FlagsHex(h) == HexOf([c.flags])
  {
    hide HexOf;
  }

  /** Every valid context is printed as a header that is accepted and means that context. */
  lemma TraceparentRoundTrip(c: Context)
    requires IsContext(c) && IsValid(c)
    ensures Accepted(Traceparent(c)) && ParentOf(Traceparent(c)) == Parent(c.traceId, c.spanId, c.flags)
  {
    hide HexOf, Traceparent, NonZero, BytesOf;
    Fields(c);
    HexRoundTrip(c.traceId);
    HexRoundTrip(c.spanId);
    HexRoundTrip([c.flags]);
  }

  /**
   An accepted header is reprinted character for character, up to the version and what a later
   version appended; so a version-00 header is reprinted exactly.
   */
  lemma ReprintedExactly(h: text, state: TraceState.State, remote: bool)
    requires Accepted(h)
    ensures var p := ParentOf(h);
            var again := Traceparent(Context(p.traceId, p.spanId, p.flags, state, remote));
            && again == ZERO_ZERO + h[2..TRACEPARENT_CHARS]
            && (again == h <==> Version(h) == ZERO_ZERO)
  {
    hide HexOf, BytesOf, NonZero, AllLowerHex, Traceparent;
    var p := ParentOf(h);
    var c := Context(p.traceId, p.spanId, p.flags, state, remote);
    var again := Traceparent(c);
    Fields(c);
    HexIsCanonical(TraceHex(h));
    HexIsCanonical(SpanHex(h));
    HexIsCanonical(FlagsHex(h));
    assert BytesOf(FlagsHex(h)) == [p.flags];
    Pieces(h);
    Pieces(again);
    if Version(h) == ZERO_ZERO { assert h == h[..2] + h[2..TRACEPARENT_CHARS]; }
  }

  lemma Pieces(h: text)
    requires |h| >= TRACEPARENT_CHARS
    ensures h[2..TRACEPARENT_CHARS] == [h[2]] + TraceHex(h) + [h[35]] + SpanHex(h) + [h[52]] + FlagsHex(h)
    ensures |h| == TRACEPARENT_CHARS ==> h == Version(h) + h[2..TRACEPARENT_CHARS]
  {}

  /** An accepted version-00 header stays accepted, with the same meaning, under any later version but ff. */
  lemma LaterVersions(h: text, v: text, more: text)
    requires Accepted(h) && Version(h) == ZERO_ZERO
    requires |v| == 2 && AllLowerHex(v) && v != FF && v != ZERO_ZERO
    ensures Accepted(v + h[2..]) && ParentOf(v + h[2..]) == ParentOf(h)
    ensures Accepted(v + h[2..] + [DASH] + more) && ParentOf(v + h[2..] + [DASH] + more) == ParentOf(h)
  {
    hide BytesOf, NonZero, AllLowerHex;
    var g := v + h[2..];
    SameFields(h, g);
    SameFields(h, g + [DASH] + more);
    assert (g + [DASH] + more)[TRACEPARENT_CHARS] == DASH;
    assert (g + [DASH] + more)[..2] == v && g[..2] == v;
  }

  lemma SameFields(h: text, g: text)
    requires |h| == TRACEPARENT_CHARS <= |g| && g[2..TRACEPARENT_CHARS] == h[2..]
    ensures TraceHex(g) == TraceHex(h) && SpanHex(g) == SpanHex(h) && FlagsHex(g) == FlagsHex(h)
    ensures g[2] == h[2] && g[35] == h[35] && g[52] == h[52]
  {
    Inner(g, 1, 33); Inner(h, 1, 33);
    Inner(g, 34, 50); Inner(h, 34, 50);
    Inner(g, 51, 53); Inner(h, 51, 53);
    assert h[2..] == h[2..TRACEPARENT_CHARS];
    InnerOctets(g);
    InnerOctets(h);
  }

  lemma Inner(t: text, i: nat, j: nat)
    requires i <= j <= 53 && 55 <= |t|
    ensures t[2..55][i..j] == t[2 + i..2 + j]
  {
    var a, b := t[2..55][i..j], t[2 + i..2 + j];
    forall k | 0 <= k < j - i
      ensures a[k] == b[k]
    {
      assert t[2..55][i + k] == t[2 + i + k];
    }
    assert a == b;
  }

  lemma InnerOctets(t: text)
    requires 55 <= |t|
    ensures t[2..55][0] == t[2] && t[2..55][33] == t[35] && t[2..55][50] == t[52]
  {}

  /** Version 00 ends with its flags, version ff is none, and a shorter header is none. */
  lemma Rejected(h: text)
    ensures |h| < TRACEPARENT_CHARS ==> !Accepted(h)
    ensures |h| >= TRACEPARENT_CHARS && h[..2] == [0x66, 0x66] ==> !Accepted(h)
    ensures |h| > TRACEPARENT_CHARS && h[..2] == [0x30, 0x30] ==> !Accepted(h)
    ensures |h| > TRACEPARENT_CHARS && h[TRACEPARENT_CHARS] != DASH ==> !Accepted(h)
  {
    hide BytesOf, NonZero, AllLowerHex, HexFields;
  }

  // ---------------------------------------------------------------- Inject and Extract

  /** The headers a setter writes and a getter reads. */
  type Carrier = map<string, text>

  const TRACEPARENT := "traceparent"
  const TRACESTATE := "tracestate"

  /** W3CTraceContextPropagator::Inject */
  method Inject(c: Context, carrier: Carrier) returns (r: Carrier)
    requires IsContext(c) && TraceState.IsState(c.state)
    ensures r == Injected(c, carrier)
  {
    hide Traceparent, TraceState.Header, TraceState.IsState;
    if !ValidNow(c) {
      return carrier;
    }
    var header := FormatTraceparent(c);
    r := carrier[TRACEPARENT := header];
    var state := TraceState.ToHeader(c.state);
    if state != [] {
      r := r[TRACESTATE := state];
    }
  }

  /** SpanContext::IsValid on ids of the fixed widths. */
  predicate ValidNow(c: Context) { c.traceId != Zeros(|c.traceId|) && c.spanId != Zeros(|c.spanId|) }

  lemma ValidIsNonZero(c: Context)
    ensures ValidNow(c) == IsValid(c)
  {
    if NonZero(c.traceId) { assert c.traceId != Zeros(|c.traceId|); }
    if NonZero(c.spanId) { assert c.spanId != Zeros(|c.spanId|); }
    if !NonZero(c.traceId) { assert c.traceId == Zeros(|c.traceId|); }
    if !NonZero(c.spanId) { assert c.spanId == Zeros(|c.spanId|); }
  }

  function Injected(c: Context, carrier: Carrier): Carrier
    requires IsContext(c)
  {
    if !ValidNow(c) then carrier else
    var r := carrier[TRACEPARENT := Traceparent(c)];
    if TraceState.Header(c.state) == [] then r else r[TRACESTATE := TraceState.Header(c.state)]
  }

  function Extracted(carrier: Carrier): Context {
    if TRACEPARENT !in carrier || !Accepted(carrier[TRACEPARENT]) then Invalid() else
    var p := ParentOf(carrier[TRACEPARENT]);
    var state := if TRACESTATE in carrier then TraceState.FromHeader(carrier[TRACESTATE]) else [];
    Context(p.traceId, p.spanId, p.flags, state, true)
  }

  /** W3CTraceContextPropagator::Extract */
  method Extract(carrier: Carrier) returns (c: Context)
    ensures c == Extracted(carrier)
  {
    hide Accepted, ParentOf, TraceState.FromHeader, TraceState.IsState;
    if TRACEPARENT !in carrier {
      return Invalid();
    }
    var parent := ParseTraceparent(carrier[TRACEPARENT]);
    if parent.None? {
      return Invalid();
    }
    var p := parent.value;
    c := Context(p.traceId, p.spanId, p.flags, [], false);
    if TRACESTATE in carrier {
      var state := TraceState.Parse(carrier[TRACESTATE]);
      c := c.(state := state);
    }
    c := c.(remote := true);
  }

  /** Extract gives the default invalid context, or a valid remote one with a proper trace state. */
  lemma ExtractIsDefaultOrRemote(carrier: Carrier)
    ensures var c := Extracted(carrier);
            || (c == Invalid() && !IsValid(c))
            || (IsContext(c) && IsValid(c) && c.remote && TraceState.IsState(c.state))
  {
    hide TraceState.FromHeader, TraceState.IsState;
    if TRACESTATE in carrier { TraceState.FromHeaderIsState(carrier[TRACESTATE]); }
    TraceState.EmptyIsState();
  }

  /** What a carrier already says when no trace state is written over it. */
  predicate NoStaleState(carrier: Carrier) {
    TRACESTATE in carrier ==> TraceState.FromHeader(carrier[TRACESTATE]) == []
  }

  /**
   Round trip: what was injected is extracted, now remote. It holds from every carrier, empty or
   not, except that an empty trace state does not remove a trace state the carrier already had.
   */
  lemma ContextRoundTrip(c: Context, carrier: Carrier)
    requires IsContext(c) && IsValid(c) && TraceState.IsState(c.state)
    ensures Extracted(Injected(c, carrier)) == c.(remote := true) <==> c.state != [] || NoStaleState(carrier)
  {
    hide Accepted, ParentOf, IsValid, TraceState.FromHeader, TraceState.IsState, TraceState.Header;
    ValidIsNonZero(c);
    TraceparentRoundTrip(c);
    TraceState.HeaderRoundTrip(c.state);
    TraceState.OnlyEmptyIsBlank(c.state);
    TwoNames();
    var sent := Injected(c, carrier);
    assert sent[TRACEPARENT] == Traceparent(c);
  }

  /** The exception happens: a stale `a=1` is extracted with a context that has no trace state. */
  lemma StaleStateSurvives(c: Context)
    requires IsContext(c) && IsValid(c) && c.state == []
    ensures var stale: Carrier := map[TRACESTATE := [0x61, EQUALS, 0x31]];
            && Extracted(Injected(c, stale)) == c.(remote := true, state := [TraceState.Entry([0x61], [0x31])])
            && Extracted(Injected(c, stale)) != c.(remote := true)
  {
    hide Accepted, ParentOf, IsValid, TraceState.FromHeader, TraceState.IsState, TraceState.Header;
    var one := [TraceState.Entry([0x61], [0x31])];
    TraceState.OneEntry();
    TraceState.HeaderRoundTrip(one);
    ValidIsNonZero(c);
    TraceparentRoundTrip(c);
    TraceState.EmptyIsState();
    TraceState.OnlyEmptyIsBlank([]);
    TwoNames();
  }

  /** From an empty carrier there is no exception. */
  lemma FreshCarrierRoundTrip(c: Context)
    requires IsContext(c) && IsValid(c) && TraceState.IsState(c.state)
    ensures Extracted(Injected(c, map[])) == c.(remote := true)
  {
    hide Extracted, Injected, IsValid, TraceState.IsState;
    ContextRoundTrip(c, map[]);
  }

  /** A valid context writes its two headers and no other. */
  lemma InjectWritesTwo(c: Context, carrier: Carrier, name: string)
    requires IsContext(c) && IsValid(c) && TraceState.IsState(c.state)
    ensures var r := Injected(c, carrier);
            && r.Keys == carrier.Keys + {TRACEPARENT} + (if c.state == [] then {} else {TRACESTATE})
            && (name in carrier && name !in {TRACEPARENT, TRACESTATE} ==> r[name] == carrier[name])
            && (c.state == [] && TRACESTATE in carrier ==> r[TRACESTATE] == carrier[TRACESTATE])
  {
    hide IsValid, TraceState.IsState, TraceState.Header, Traceparent;
    ValidIsNonZero(c);
    TraceState.OnlyEmptyIsBlank(c.state);
    TwoNames();
  }

  /** An invalid context writes nothing. */
  lemma InvalidIsNotInjected(c: Context, carrier: Carrier)
    requires IsContext(c) && !IsValid(c)
    ensures Injected(c, carrier) == carrier
  {
    ValidIsNonZero(c);
  }

  lemma TwoNames()
    ensures TRACEPARENT != TRACESTATE
  {
    assert TRACEPARENT[5] == 'p' && TRACESTATE[5] == 's';
  }
}
