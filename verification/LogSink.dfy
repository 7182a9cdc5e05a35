/**
 The stderr fallback of the log sink: a line is assembled in a fixed buffer that is flushed when
 full, control characters are escaped, and a record below the minimum level writes nothing.
 */
module LogSink {
  import opened Basics
  import opened Text

  const BUFFER_SIZE: nat := 512
  const NEWLINE: byte := 0x0A
  const RETURN: byte := 0x0D
  const BACKSLASH: byte := 0x5C
  const FIRST_PRINTABLE: byte := 0x20
  const DELETE: byte := 0x7F

  // ---------------------------------------------------------------- What a line is

  /** The octets of "[microtel " and of "] ". */
  const OPENING: text := [0x5B, 0x6D, 0x69, 0x63, 0x72, 0x6F, 0x74, 0x65, 0x6C, 0x20]
  const CLOSING: text := [0x5D, 0x20]

  /** trace, debug, info, warn, error, and "?" for a value cast in from outside the enumeration. */
  function LevelTag(level: byte): text {
    match level
    case 0 => [0x74, 0x72, 0x61, 0x63, 0x65]
    case 1 => [0x64, 0x65, 0x62, 0x75, 0x67]
    case 2 => [0x69, 0x6E, 0x66, 0x6F]
    case 3 => [0x77, 0x61, 0x72, 0x6E]
    case 4 => [0x65, 0x72, 0x72, 0x6F, 0x72]
    case _ => [0x3F]
  }

  predicate IsControl(c: byte) { c < FIRST_PRINTABLE || c == DELETE }

  /** No control octet but tab, so in particular no line end. */
  predicate IsClean(t: text) { forall i :: 0 <= i < |t| ==> t[i] == TAB || !IsControl(t[i]) }

  function HexDigit(n: nat): (c: byte)
    requires n < 16
    ensures !IsControl(c)
  {
    if n < 10 then 0x30 + n else 0x61 + n - 10
  }

  function Escape(c: byte): (t: text)
    ensures IsClean(t)
  {
    if c == TAB || !IsControl(c) then [c]
    else if c == NEWLINE then [BACKSLASH, 0x6E]
    else if c == RETURN then [BACKSLASH, 0x72]
    else [BACKSLASH, 0x78, HexDigit(c / 16), HexDigit(c % 16)]
  }

  function Sanitized(t: text): text { if t == [] then [] else Escape(t[0]) + Sanitized(t[1..]) }

  function Prefix(level: byte): text { OPENING + LevelTag(level) + CLOSING }

  /** A record without its line end. */
  function Body(level: byte, message: text): text { Prefix(level) + Sanitized(message) }

  /** The line of a record: the reference the buffered writer must agree with. */
  function Line(level: byte, message: text): text { Body(level, message) + [NEWLINE] }

  lemma {:induction false} SanitizedIsClean(t: text)
    ensures IsClean(Sanitized(t))
  {
    if t != [] { SanitizedIsClean(t[1..]); }
  }

  lemma {:induction false} SanitizedSum(a: text, b: text)
    ensures Sanitized(a + b) == Sanitized(a) + Sanitized(b)
  {
    if a == [] {
      assert a + b == b;
    } else {
      assert (a + b)[1..] == a[1..] + b;
      SanitizedSum(a[1..], b);
    }
  }

  /** A message without control octets is written as it stands. */
  lemma {:induction false} CleanIsUnchanged(t: text)
    requires IsClean(t)
    ensures Sanitized(t) == t
  {
    if t != [] {
      CleanIsUnchanged(t[1..]);
      assert t == [t[0]] + t[1..];
    }
  }

  lemma PrefixIsClean(level: byte)
    ensures IsClean(Prefix(level))
  {
    assert IsClean(OPENING) && IsClean(LevelTag(level)) && IsClean(CLOSING);
  }

  /** The line end comes last and is the only one; no other control octet but tab is in the line. */
  lemma OneCleanLine(level: byte, message: text)
    ensures var l := Line(level, message);
            && l[|l| - 1] == NEWLINE
            && (forall i :: 0 <= i < |l| - 1 ==> l[i] == TAB || !IsControl(l[i]))
            && Find(l, NEWLINE) == |l| - 1
  {
    hide Prefix, Sanitized;
    PrefixIsClean(level);
    SanitizedIsClean(message);
    var l := Line(level, message);
    FindIs(l, NEWLINE, |l| - 1);
  }

  function Ascii(s: string): (t: text)
    ensures |t| == |s|
  {
    seq(|s|, i requires 0 <= i < |s| => (s[i] as int) % 0x80)
  }

  /** What stands around the name of a level, spelled out. */
  lemma PrefixIsSpelled()
    ensures OPENING == Ascii("[microtel ") && CLOSING == Ascii("] ")
  {}

  /** The names of the levels, spelled out. */
  lemma TagsAreNames()
    ensures LevelTag(0) == Ascii("trace") && LevelTag(1) == Ascii("debug") && LevelTag(2) == Ascii("info")
    ensures LevelTag(3) == Ascii("warn") && LevelTag(4) == Ascii("error")
    ensures forall level: byte :: level > 4 ==> LevelTag(level) == Ascii("?")
  {}

  /** Line feed and carriage return are spelled, and every other control octet but tab is its two hex digits. */
  lemma EscapesAreReadable(c: byte)
    ensures Escape(NEWLINE) == Ascii("\\n") && Escape(RETURN) == Ascii("\\r")
    ensures IsControl(c) && c !in {TAB, NEWLINE, RETURN} ==>
              && |Escape(c)| == 4 && Escape(c)[..2] == Ascii("\\x")
              && 16 * DigitValue(Escape(c)[2]) + DigitValue(Escape(c)[3]) == c
  {}

  function DigitValue(c: byte): int { if 0x30 <= c <= 0x39 then c - 0x30 else c - 0x61 + 10 }

  /** Different octets are escaped differently, so one escape stands for one octet. */
  lemma EscapesDiffer(c: byte, d: byte)
    ensures Escape(c) == Escape(d) <==> c == d
  {
    EscapesAreReadable(c);
    EscapesAreReadable(d);
    if Escape(c) == Escape(d) && |Escape(c)| == 2 { assert Escape(c)[1] == Escape(d)[1]; }
    if Escape(c) == Escape(d) && |Escape(c)| == 1 { assert Escape(c)[0] == Escape(d)[0]; }
    if Escape(c) == Escape(d) && |Escape(c)| == 4 {
      assert Escape(c)[2] == Escape(d)[2] && Escape(c)[3] == Escape(d)[3];
    }
  }

  // ---------------------------------------------------------------- The buffered writer

  function Concat(ws: seq<text>): text { if ws == [] then [] else Concat(ws[..|ws| - 1]) + ws[|ws| - 1] }

  /** Every write but perhaps the last is a full buffer. */
  predicate FullWrites(ws: seq<text>) { forall i :: 0 <= i < |ws| ==> |ws[i]| == 512 }

  lemma ConcatAppend(ws: seq<text>, w: text)
    ensures Concat(ws + [w]) == Concat(ws) + w
  {
    assert (ws + [w])[..|ws|] == ws;
  }

  /** FallbackLineWriter; writes holds what each fwrite was given. */
  class FallbackLineWriter {
    const buf: array<byte>
    var len: nat
    var writes: seq<text>

    ghost predicate Valid()
      reads this
    {
      buf.Length == BUFFER_SIZE && len <= BUFFER_SIZE
    }

    /** What has been put so far, flushed or not. */
    ghost function Contents(): text
      requires Valid()
      reads this, buf
    {
      Concat(writes) + buf[..len]
    }

    constructor ()
      ensures Valid() && fresh(buf) && Contents() == [] && writes == []
    {
      buf := new byte[BUFFER_SIZE](_ => 0);
      len := 0;
      writes := [];
    }

    method Flush()
      requires Valid()
      modifies this
      ensures Valid() && Concat(writes) == Contents() == old(Contents()) && len == 0
      ensures writes == if old(len) > 0 then old(writes) + [old(buf[..len])] else old(writes)
    {
      if len > 0 {
        ConcatAppend(writes, buf[..len]);
        writes := writes + [buf[..len]];
        len := 0;
      }
    }

    method Put(c: byte)
      requires Valid() && FullWrites(writes)
      modifies this, buf
      ensures Valid() && Contents() == old(Contents()) + [c]
      ensures FullWrites(writes) && len > 0
    {
      hide Concat;
      if len == buf.Length {
        Flush();
      }
      ghost var before := buf[..len];
      buf[len] := c;
      len := len + 1;
      assert buf[..len] == before + [c];
      assert Concat(writes) + (before + [c]) == Concat(writes) + before + [c];
    }

    method PutText(t: text)
      requires Valid() && FullWrites(writes)
      modifies this, buf
      ensures Valid() && FullWrites(writes) && Contents() == old(Contents()) + t
    {
      for i := 0 to |t|
        invariant Valid() && FullWrites(writes) && Contents() == old(Contents()) + t[..i]
      {
        Put(t[i]);
        assert t[..i + 1] == t[..i] + [t[i]];
      }
      assert t[..|t|] == t;
    }

    method PutSanitizedChar(c: byte)
      requires Valid() && FullWrites(writes)
      modifies this, buf
      ensures Valid() && FullWrites(writes) && Contents() == old(Contents()) + Escape(c)
    {
      hide Concat, FullWrites, FallbackLineWriter.Contents;
      if c == TAB || (c >= FIRST_PRINTABLE && c != DELETE) {
        Put(c);
        return;
      }
      Put(BACKSLASH);
      if c == NEWLINE {
        Put(0x6E);
        return;
      }
      if c == RETURN {
        Put(0x72);
        return;
      }
      Put(0x78);
      Put(HexDigit(c / 16));
      Put(HexDigit(c % 16));
    }

    method PutSanitized(t: text)
      requires Valid() && FullWrites(writes)
      modifies this, buf
      ensures Valid() && FullWrites(writes) && Contents() == old(Contents()) + Sanitized(t)
    {
      hide Concat, FullWrites, Sanitized, Escape, FallbackLineWriter.Contents;
      NothingSanitized();
      assert t[..0] == [];
      for i := 0 to |t|
        invariant Valid() && FullWrites(writes) && Contents() == old(Contents()) + Sanitized(t[..i])
      {
        PutSanitizedChar(t[i]);
        SanitizedSnoc(t, i);
      }
      assert t[..|t|] == t;
    }
  }

  lemma NothingSanitized()
    ensures Sanitized([]) == []
  {}

  lemma SanitizedSnoc(t: text, i: nat)
    requires i < |t|
    ensures Sanitized(t[..i + 1]) == Sanitized(t[..i]) + Escape(t[i])
  {
    assert t[..i + 1] == t[..i] + [t[i]];
    SanitizedSum(t[..i], [t[i]]);
    assert Sanitized([t[i]]) == Escape(t[i]) + [];
  }

  /**
   The stderr path of LogImpl. The writes concatenate to the reference line; all but the last fill
   the buffer, so a line that fits goes out in one write.
   */
  method WriteLine(level: byte, message: text) returns (writes: seq<text>)
    ensures Concat(writes) == Line(level, message)
    ensures |writes| > 0 && FullWrites(writes[..|writes| - 1]) && 0 < |writes[|writes| - 1]| <= 512
    ensures |Line(level, message)| <= 512 ==> writes == [Line(level, message)]
  {
    hide Sanitized, FullWrites, Concat, LevelTag, FallbackLineWriter.Contents;
    var line := new FallbackLineWriter();
    line.PutText(OPENING);
    line.PutText(LevelTag(level));
    line.PutText(CLOSING);
    line.PutSanitized(message);
    line.Put(NEWLINE);
    assert line.Contents() == Line(level, message);
    ghost var before, tail := line.writes, line.buf[..line.len];
    line.Flush();
    writes := line.writes;
    Flushed(before, tail, writes);
  }

  lemma Flushed(before: seq<text>, tail: text, ws: seq<text>)
    requires FullWrites(before) && 0 < |tail| <= BUFFER_SIZE && ws == before + [tail]
    ensures FullWrites(ws[..|ws| - 1]) && ws[|ws| - 1] == tail
    ensures |Concat(ws)| <= BUFFER_SIZE ==> ws == [Concat(ws)]
  {
    assert ws[..|ws| - 1] == before;
    OneWrite(ws);
  }

  lemma {:induction false} ConcatFull(ws: seq<text>)
    requires FullWrites(ws)
    ensures |Concat(ws)| >= |ws| && (ws != [] ==> |Concat(ws)| >= BUFFER_SIZE)
  {
    if ws != [] { ConcatFull(ws[..|ws| - 1]); }
  }

  lemma OneWrite(ws: seq<text>)
    requires ws != [] && FullWrites(ws[..|ws| - 1]) && ws[|ws| - 1] != []
    ensures |Concat(ws)| <= BUFFER_SIZE ==> ws == [Concat(ws)]
  {
    var init := ws[..|ws| - 1];
    ConcatFull(init);
    if |Concat(ws)| <= BUFFER_SIZE {
      assert init == [];
      assert Concat(init) == [] && [] + ws[0] == ws[0] && ws == [ws[0]];
    }
  }

  // ---------------------------------------------------------------- Whole runs

  datatype Record = Record(level: byte, message: text)

  /** The records that pass the minimum level, as lines without their ends. */
  function Bodies(rs: seq<Record>, min: byte): seq<text> {
    if rs == [] then [] else
    var r := rs[|rs| - 1];
    Bodies(rs[..|rs| - 1], min) + if r.level < min then [] else [Body(r.level, r.message)]
  }

  /** A record is written exactly when its level is the minimum or above. */
  lemma {:induction false} WrittenFromMinimum(rs: seq<Record>, r: Record, min: byte)
    ensures Bodies(rs + [r], min)
         == if r.level >= min then Bodies(rs, min) + [Body(r.level, r.message)] else Bodies(rs, min)
  {
    hide Body;
    assert (rs + [r])[..|rs|] == rs;
    assert Bodies(rs, min) + [] == Bodies(rs, min);
  }

  /** LogImpl with no sink installed, over a run of records; what reaches stderr. */
  method LogAll(rs: seq<Record>, min: byte) returns (stderr: text)
    ensures Split(stderr, NEWLINE) == Bodies(rs, min) + [[]]
  {
    hide Split, Body, Concat;
    stderr := [];
    SplitSingle([], NEWLINE);
    for i := 0 to |rs|
      invariant Split(stderr, NEWLINE) == Bodies(rs[..i], min) + [[]]
    {
      assert rs[..i + 1][..i] == rs[..i];
      if rs[i].level < min {
        continue;
      }
      var writes := WriteLine(rs[i].level, rs[i].message);
      LineEndsPiece(stderr, rs[i].level, rs[i].message, Bodies(rs[..i], min));
      stderr := stderr + Concat(writes);
    }
    assert rs[..|rs|] == rs;
  }

  /** One record adds one line to whatever is there: it can neither forge nor split another. */
  lemma LineEndsPiece(out: text, level: byte, message: text, lines: seq<text>)
    requires Split(out, NEWLINE) == lines + [[]]
    ensures Split(out + Line(level, message), NEWLINE) == lines + [Body(level, message)] + [[]]
  {
    hide Split, Body;
    var body := Body(level, message);
    assert NEWLINE !in body by { BodyIsClean(level, message); }
    SplitExtends(out, body, lines);
    SplitConcat(out + body, [], NEWLINE);
    SplitSingle([], NEWLINE);
    assert out + body + [NEWLINE] + [] == out + Line(level, message);
  }

  lemma BodyIsClean(level: byte, message: text)
    ensures IsClean(Body(level, message))
  {
    hide Prefix, Sanitized;
    PrefixIsClean(level);
    SanitizedIsClean(message);
  }

  lemma {:induction false} SplitExtends(out: text, body: text, lines: seq<text>)
    requires Split(out, NEWLINE) == lines + [[]] && NEWLINE !in body
    ensures Split(out + body, NEWLINE) == lines + [body]
    decreases out
  {
    hide Split;
    var i := Find(out, NEWLINE);
    SplitFirst(out, NEWLINE);
    var pieces := Split(out, NEWLINE);
    if i == |out| {
      assert |lines| == 0 && pieces[0] == out;
      assert out + body == body;
      SplitSingle(body, NEWLINE);
    } else {
      var rest := out[i + 1..];
      assert pieces[0] == lines[0] && pieces[1..] == lines[1..] + [[]];
      SplitExtends(rest, body, lines[1..]);
      SplitFirst(out + body, NEWLINE);
      FindIs(out + body, NEWLINE, i);
      assert (out + body)[..i] == out[..i] && (out + body)[i + 1..] == rest + body;
      assert [lines[0]] + (lines[1..] + [body]) == lines + [body];
    }
  }
}
