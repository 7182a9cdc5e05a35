/**
 The tracestate list (section 3.3 of W3C Trace Context): the key and value grammar, the
 all-or-nothing parser, the printer and the two copy-on-write mutators.
 */
module TraceState {
  import opened Basics
  import opened Text

  const MAX_ENTRIES := 32
  const MAX_SIMPLE_KEY := 256
  const MAX_TENANT_ID := 241
  const MAX_SYSTEM_ID := 14
  const MAX_VALUE := 256

  // ---------------------------------------------------------------- Grammar

  predicate IsKeyTailChar(c: byte) {
    IsLowerAlpha(c) || IsDigit(c) || c == 0x5F || c == DASH || c == 0x2A || c == 0x2F
  }

  predicate HasKeyTail(t: text) { forall i :: 1 <= i < |t| ==> IsKeyTailChar(t[i]) }

  predicate IsAlphaLed(t: text, max: nat) {
    t != [] && |t| <= max && IsLowerAlpha(t[0]) && HasKeyTail(t)
  }

  predicate IsTenantId(t: text) {
    t != [] && |t| <= MAX_TENANT_ID && (IsLowerAlpha(t[0]) || IsDigit(t[0])) && HasKeyTail(t)
  }

  /** A simple key, or a tenant and a system around the first `@`. */
  predicate IsValidKey(key: text) {
    var at := Find(key, AT);
    if at == |key| then IsAlphaLed(key, MAX_SIMPLE_KEY)
    else IsTenantId(key[..at]) && IsAlphaLed(key[at + 1..], MAX_SYSTEM_ID)
  }

  predicate IsValueChar(c: byte) { SPACE <= c <= 0x7E && c != COMMA && c != EQUALS }

  predicate IsValidValue(value: text) {
    && value != [] && |value| <= MAX_VALUE && value[|value| - 1] != SPACE
    && forall i :: 0 <= i < |value| ==> IsValueChar(value[i])
  }

  /** Lower-case letters, digits and `_` `-` `*` `/`, up to a length, beginning with a letter or, if it may, a digit. */
  predicate Component(t: text, max: nat, digitFirst: bool) {
    && 1 <= |t| <= max
    && (0x61 <= t[0] <= 0x7A || (digitFirst && 0x30 <= t[0] <= 0x39))
    && forall i :: 0 <= i < |t| ==> 0x61 <= t[i] <= 0x7A || 0x30 <= t[i] <= 0x39 || t[i] in {0x5F, 0x2D, 0x2A, 0x2F}
  }

  /** A key is a simple key, or a tenant and a system with an `@` between, as section 3.3 has it. */
  lemma KeysAreAsSpecified(key: text)
    ensures IsValidKey(key) <==>
              || Component(key, 256, false)
              || exists i :: 0 <= i < |key| && TenantAt(key, i)
  {
    hide Component;
    var at := Find(key, AT);
    SimpleIs(key, MAX_SIMPLE_KEY);
    if Component(key, 256, false) { ComponentHasNoAt(key, 256, false); }
    if at < |key| {
      TenantIs(key[..at]);
      SimpleIs(key[at + 1..], MAX_SYSTEM_ID);
      if IsValidKey(key) { assert TenantAt(key, at); }
    }
    if i :| 0 <= i < |key| && TenantAt(key, i) {
      ComponentHasNoAt(key[..i], 241, true);
      assert forall j :: 0 <= j < i ==> key[j] == key[..i][j];
      FindIs(key, AT, i);
    }
  }

  predicate TenantAt(key: text, i: nat)
    requires i < |key|
  {
    key[i] == 0x40 && Component(key[..i], 241, true) && Component(key[i + 1..], 14, false)
  }

  lemma SimpleIs(t: text, max: nat)
    ensures IsAlphaLed(t, max) <==> Component(t, max, false)
  {}

  lemma TenantIs(t: text)
    ensures IsTenantId(t) <==> Component(t, 241, true)
  {}

  lemma ComponentHasNoAt(t: text, max: nat, digitFirst: bool)
    requires Component(t, max, digitFirst)
    ensures AT !in t
  {}

  /** A value is 1 to 256 printable characters without the separators, the last of them not a space. */
  lemma ValuesAreAsSpecified(value: text)
    ensures IsValidValue(value) <==>
              && 1 <= |value| <= 256 && value[|value| - 1] != 0x20
              && forall i :: 0 <= i < |value| ==> 0x20 <= value[i] <= 0x7E && value[i] !in {0x2C, 0x3D}
  {}

  datatype Entry = Entry(key: text, value: text)
  type State = seq<Entry>

  predicate IsEntry(e: Entry) { IsValidKey(e.key) && IsValidValue(e.value) }

  predicate UniqueKeys(s: State) { forall i, j :: 0 <= i < j < |s| ==> s[i].key != s[j].key }

  /** What every trace state is. */
  predicate IsState(s: State) {
    |s| <= 32 && UniqueKeys(s) && forall i :: 0 <= i < |s| ==> IsEntry(s[i])
  }

  /** A key has no octet of the list syntax, and a second `@` is never part of one. */
  lemma KeyIsPlain(key: text)
    requires IsValidKey(key)
    ensures key != [] && !IsOws(key[0]) && COMMA !in key && EQUALS !in key
  {
    var at := Find(key, AT);
    if at < |key| {
      var tenant, system := key[..at], key[at + 1..];
      assert key == tenant + [AT] + system;
      ComponentIsPlain(tenant);
      ComponentIsPlain(system);
    } else {
      ComponentIsPlain(key);
    }
  }

  lemma ComponentIsPlain(t: text)
    requires t != [] && (IsLowerAlpha(t[0]) || IsDigit(t[0])) && HasKeyTail(t)
    ensures !IsOws(t[0]) && COMMA !in t && EQUALS !in t && AT !in t
  {}

  /** The first `@` is the only one a valid key may hold. */
  lemma OneTenantSeparator(key: text)
    requires IsValidKey(key)
    ensures forall i, j :: 0 <= i < |key| && 0 <= j < |key| && key[i] == AT && key[j] == AT ==> i == j
  {
    var at := Find(key, AT);
    if at < |key| {
      ComponentIsPlain(key[at + 1..]);
      assert forall i :: at < i < |key| ==> key[i] == key[at + 1..][i - at - 1];
    }
  }

  // ---------------------------------------------------------------- One member

  function ParseMember(member: text): Option<Entry> {
    var eq := Find(member, EQUALS);
    if eq == |member| then None else
    var key, value := member[..eq], member[eq + 1..];
    if IsValidKey(key) && IsValidValue(value) then Some(Entry(key, value)) else None
  }

  function Member(e: Entry): text { e.key + [EQUALS] + e.value }

  lemma MemberIsPlain(e: Entry)
    requires IsEntry(e)
    ensures Member(e) != [] && Trimmed(Member(e)) && COMMA !in Member(e)
  {
    hide IsValidKey;
    KeyIsPlain(e.key);
    var m := Member(e);
    assert m[0] == e.key[0] && m[|m| - 1] == e.value[|e.value| - 1];
  }

  /** Parsing a written member gives the entry back, leading spaces of the value included. */
  lemma MemberRoundTrip(e: Entry)
    requires IsEntry(e)
    ensures ParseMember(Trim(Member(e))) == Some(e)
  {
    hide IsValidKey, IsValidValue;
    MemberIsPlain(e);
    TrimTrimmed(Member(e));
    KeyIsPlain(e.key);
    var m := Member(e);
    FindIs(m, EQUALS, |e.key|);
    assert m[..|e.key|] == e.key && m[|e.key| + 1..] == e.value;
  }

  /** And what was parsed is written back as it stood. */
  lemma ParseIsInverse(member: text)
    requires ParseMember(member).Some?
    ensures IsEntry(ParseMember(member).value) && Member(ParseMember(member).value) == member
  {
    hide IsValidKey, IsValidValue;
    var eq := Find(member, EQUALS);
    assert member == member[..eq] + [EQUALS] + member[eq + 1..];
  }

  // ---------------------------------------------------------------- What a header means

  function NonBlank(parts: seq<text>): (r: seq<text>) {
    if parts == [] then [] else
    (if Trim(parts[0]) == [] then [] else [Trim(parts[0])]) + NonBlank(parts[1..])
  }

  /** The list-members of a header: its non-blank parts, trimmed. */
  function Members(header: text): seq<text> { NonBlank(Split(header, COMMA)) }

  predicate Duplicate(a: text, b: text) {
    ParseMember(a).Some? && ParseMember(b).Some? && ParseMember(a).value.key == ParseMember(b).value.key
  }

  /** At most 32 members, each within the grammar, no key twice. */
  predicate Acceptable(ms: seq<text>) {
    && |ms| <= MAX_ENTRIES
    && (forall i :: 0 <= i < |ms| ==> ParseMember(ms[i]).Some?)
    && (forall i, j :: 0 <= i < j < |ms| ==> !Duplicate(ms[i], ms[j]))
  }

  function EntriesOf(ms: seq<text>): (s: State)
    requires Acceptable(ms)
    ensures |s| == |ms| && forall i :: 0 <= i < |ms| ==> s[i] == ParseMember(ms[i]).value
  {
    hide ParseMember;
    seq(|ms|, i requires 0 <= i < |ms| => ParseMember(ms[i]).value)
  }

  /** All or nothing: every member when all are acceptable together, else the empty state. */
  function FromHeader(header: text): State {
    if Acceptable(Members(header)) then EntriesOf(Members(header)) else []
  }

  lemma FromHeaderIsState(header: text)
    ensures IsState(FromHeader(header))
  {
    hide ParseMember, IsEntry, Members;
    var ms := Members(header);
    if Acceptable(ms) {
      var s := EntriesOf(ms);
      forall i | 0 <= i < |s|
        ensures IsEntry(s[i])
      {
        ParseIsInverse(ms[i]);
      }
      forall i, j | 0 <= i < j < |s|
        ensures s[i].key != s[j].key
      {
        assert !Duplicate(ms[i], ms[j]);
      }
    }
  }

  /** A bad member, a repeated key or a 33rd member anywhere voids the whole header; nothing else does. */
  lemma VoidedExactlyWhen(header: text)
    ensures var ms := Members(header);
            FromHeader(header) == [] <==>
            || ms == [] || |ms| > 32
            || (exists i :: 0 <= i < |ms| && ParseMember(ms[i]).None?)
            || (exists i, j :: 0 <= i < j < |ms| && Duplicate(ms[i], ms[j]))
  {
    hide ParseMember, Members, Duplicate;
    var ms := Members(header);
    if Acceptable(ms) && FromHeader(header) == [] { assert |ms| == 0; }
  }

  // ---------------------------------------------------------------- White space

  lemma {:induction false} SameNonBlank(ps: seq<text>, qs: seq<text>)
    requires |ps| == |qs| && forall i :: 0 <= i < |ps| ==> Trim(ps[i]) == Trim(qs[i])
    ensures NonBlank(ps) == NonBlank(qs)
  {
    hide Trim;
    if ps != [] {
      assert Trim(ps[0]) == Trim(qs[0]);
      SameNonBlank(ps[1..], qs[1..]);
    }
  }

  /** Spaces and tabs around any part of any header do not change what it means. */
  lemma HeaderPadding(ps: seq<text>, k: nat, a: text, b: text)
    requires k < |ps| && (forall p <- ps :: COMMA !in p) && AllOws(a) && AllOws(b)
    ensures FromHeader(Join(ps[k := a + ps[k] + b], COMMA)) == FromHeader(Join(ps, COMMA))
  {
    hide Trim, NonBlank, Acceptable, Split, Join, EntriesOf;
    var qs := ps[k := a + ps[k] + b];
    forall x | x in qs
      ensures COMMA !in x
    {
      var i :| 0 <= i < |qs| && qs[i] == x;
      assert ps[i] in ps;
    }
    SplitJoin(ps, COMMA);
    SplitJoin(qs, COMMA);
    TrimPadded(a, ps[k], b);
    SameNonBlank(ps, qs);
  }

  /** A blank part, that is, a doubled comma with or without white space, is skipped wherever it stands. */
  lemma BlankIsSkipped(left: text, blank: text, right: text)
    requires AllOws(blank)
    ensures FromHeader(left + [COMMA] + blank + [COMMA] + right) == FromHeader(left + [COMMA] + right)
  {
    hide Trim, NonBlank, Acceptable, Split, EntriesOf;
    assert COMMA !in blank;
    var whole := left + [COMMA] + blank + [COMMA] + right;
    assert whole == left + [COMMA] + (blank + [COMMA] + right);
    SplitConcat(left, blank + [COMMA] + right, COMMA);
    SplitConcat(blank, right, COMMA);
    SplitSingle(blank, COMMA);
    SplitConcat(left, right, COMMA);
    var a, b := Split(left, COMMA), Split(right, COMMA);
    assert Split(whole, COMMA) == a + ([blank] + b);
    NonBlankSum(a, [blank] + b);
    NonBlankSum([blank], b);
    NonBlankSum(a, b);
    OneBlank(blank);
    assert [] + NonBlank(b) == NonBlank(b);
    assert Members(whole) == Members(left + [COMMA] + right);
  }

  lemma OneBlank(blank: text)
    requires AllOws(blank)
    ensures NonBlank([blank]) == []
  {
    hide Trim;
    NoBlank();
    TrimPadded(blank, [], []);
    assert blank + [] + [] == blank;
    TrimTrimmed([]);
    assert NonBlank([blank][1..]) == [];
  }

  lemma {:induction false} NonBlankSum(a: seq<text>, b: seq<text>)
    ensures NonBlank(a + b) == NonBlank(a) + NonBlank(b)
  {
    hide Trim;
    if a == [] {
      assert a + b == b;
    } else {
      assert (a + b)[1..] == a[1..] + b;
      NonBlankSum(a[1..], b);
    }
  }

  // ---------------------------------------------------------------- The parser's loop

  lemma FirstMember(t: text)
    ensures var i := Find(t, COMMA);
            Members(t) == (if Trim(t[..i]) == [] then [] else [Trim(t[..i])])
                          + if i == |t| then [] else Members(t[i + 1..])
  {
    hide Trim, Split;
    SplitFirst(t, COMMA);
    var parts := Split(t, COMMA);
    var i := Find(t, COMMA);
    var more := if i == |t| then [] else Split(t[i + 1..], COMMA);
    assert parts[0] == t[..i] && parts[1..] == more;
    assert NonBlank(more) == if i == |t| then [] else Members(t[i + 1..]);
  }

  lemma NoMember()
    ensures Members([]) == []
  {
    hide Split;
    SplitSingle([], COMMA);
    TrimTrimmed([]);
    assert NonBlank([[]][1..]) == [];
  }

  /** ParseMembers: false on the first violation, whatever follows it. */
  method ParseMembers(header: text) returns (ok: bool, entries: State)
    ensures ok == Acceptable(Members(header))
    ensures ok ==> entries == EntriesOf(Members(header))
  {
    hide ParseMember, Members, Trim;
    entries := [];
    var rest := header;
    ghost var seen: seq<text> := [];
    assert [] + Members(rest) == Members(rest);
    while |rest| > 0
      invariant Members(header) == seen + Members(rest)
      invariant Acceptable(seen) && entries == EntriesOf(seen)
      decreases |rest|
    {
      FirstMember(rest);
      NoMember();
      var comma := Find(rest, COMMA);
      var member := Trim(rest[..comma]);
      ghost var before := Members(rest);
      rest := if comma == |rest| then [] else rest[comma + 1..];
      if |member| == 0 {
        assert before == Members(rest);
        continue;
      }
      ghost var seen' := seen + [member];
      assert Members(header) == seen' + Members(rest);
      if |entries| == MAX_ENTRIES {
        return false, entries;
      }
      var entry := ParseMember(member);
      if entry.None? || Contains(entries, entry.value.key) {
        Refused(seen, member, Members(rest));
        return false, entries;
      }
      Extends(seen, member);
      entries := entries + [entry.value];
      seen := seen';
    }
    NoMember();
    ok := true;
    assert seen == Members(header);
  }

  predicate Contains(s: State, key: text) { exists i :: 0 <= i < |s| && s[i].key == key }

  lemma Refused(seen: seq<text>, member: text, more: seq<text>)
    requires Acceptable(seen)
    requires ParseMember(member).None? || Contains(EntriesOf(seen), ParseMember(member).value.key)
    ensures !Acceptable(seen + [member] + more)
  {
    hide ParseMember;
    var all := seen + [member] + more;
    assert all[|seen|] == member;
    if ParseMember(member).Some? {
      var i :| 0 <= i < |seen| && EntriesOf(seen)[i].key == ParseMember(member).value.key;
      assert all[i] == seen[i] && Duplicate(all[i], all[|seen|]);
    }
  }

  lemma Extends(seen: seq<text>, member: text)
    requires Acceptable(seen) && |seen| < MAX_ENTRIES
    requires ParseMember(member).Some? && !Contains(EntriesOf(seen), ParseMember(member).value.key)
    ensures Acceptable(seen + [member])
    ensures EntriesOf(seen + [member]) == EntriesOf(seen) + [ParseMember(member).value]
  {
    hide ParseMember;
    var all := seen + [member];
    forall i, j | 0 <= i < j < |all|
      ensures !Duplicate(all[i], all[j])
    {
      if j < |seen| {
        assert !Duplicate(seen[i], seen[j]);
      } else {
        assert EntriesOf(seen)[i].key != ParseMember(member).value.key;
      }
    }
  }

  /** TraceState::FromHeader */
  method Parse(header: text) returns (s: State)
    ensures s == FromHeader(header) && IsState(s)
  {
    hide Members, IsState;
    FromHeaderIsState(header);
    var ok, entries := ParseMembers(header);
    s := if !ok || |entries| == 0 then [] else entries;
  }

  // ---------------------------------------------------------------- ToHeader

  function Written(s: State): (r: seq<text>)
    ensures |r| == |s| && forall i :: 0 <= i < |s| ==> r[i] == Member(s[i])
  {
    seq(|s|, i requires 0 <= i < |s| => Member(s[i]))
  }

  function Header(s: State): text { Join(Written(s), COMMA) }

  lemma HeaderStep(s: State, i: nat)
    requires IsState(s) && i < |s|
    ensures Header(s[..i + 1]) == if i == 0 then Member(s[i]) else Header(s[..i]) + [COMMA] + Member(s[i])
    ensures Header(s[..i]) == [] <==> i == 0
  {
    hide Member, IsEntry;
    var ws := Written(s[..i]);
    assert Written(s[..i + 1]) == ws + [Member(s[i])];
    if i > 0 {
      JoinAppend(ws, Member(s[i]), COMMA);
      assert IsEntry(s[0]);
      MemberIsPlain(s[0]);
      JoinNonEmpty(ws, COMMA);
    }
  }

  /** The loop of ToHeader. */
  method ToHeader(s: State) returns (header: text)
    requires IsState(s)
    ensures header == Header(s)
  {
    hide IsEntry;
    header := [];
    assert s[..0] == [] && Header([]) == [];
    for i := 0 to |s|
      invariant header == Header(s[..i])
    {
      HeaderStep(s, i);
      ghost var base := if i == 0 then [] else header + [COMMA];
      if |header| > 0 {
        header := header + [COMMA];
      }
      header := header + s[i].key + [EQUALS] + s[i].value;
      assert header == base + Member(s[i]);
    }
    assert s[..|s|] == s;
  }

  lemma {:induction false} NonBlankOfPlain(ws: seq<text>)
    requires forall i :: 0 <= i < |ws| ==> ws[i] != [] && Trimmed(ws[i])
    ensures NonBlank(ws) == ws
  {
    if ws != [] {
      TrimTrimmed(ws[0]);
      NonBlankOfPlain(ws[1..]);
      assert [ws[0]] + ws[1..] == ws;
    }
  }

  lemma MembersOfHeader(s: State)
    requires IsState(s)
    ensures Members(Header(s)) == Written(s)
  {
    hide Member, IsEntry;
    var ws := Written(s);
    forall i | 0 <= i < |ws|
      ensures ws[i] != [] && Trimmed(ws[i]) && COMMA !in ws[i]
    {
      assert IsEntry(s[i]);
      MemberIsPlain(s[i]);
    }
    if s == [] {
      NoMember();
    } else {
      SplitJoin(ws, COMMA);
      NonBlankOfPlain(ws);
    }
  }

  /** Round trip: reading back what was written gives the same list in the same order. */
  lemma HeaderRoundTrip(s: State)
    requires IsState(s)
    ensures FromHeader(Header(s)) == s
  {
    hide Member, IsEntry, ParseMember, Members, Header;
    MembersOfHeader(s);
    var ws := Written(s);
    forall i | 0 <= i < |ws|
      ensures ParseMember(ws[i]) == Some(s[i])
    {
      assert IsEntry(s[i]);
      MemberIsPlain(s[i]);
      TrimTrimmed(ws[i]);
      MemberRoundTrip(s[i]);
    }
  }

  /** Only the empty state is written as an empty header. */
  lemma OnlyEmptyIsBlank(s: State)
    requires IsState(s)
    ensures Header(s) == [] <==> s == []
  {
    hide IsEntry, Member;
    if s != [] {
      assert IsEntry(s[0]);
      MemberIsPlain(s[0]);
      JoinNonEmpty(Written(s), COMMA);
    }
  }

  // ---------------------------------------------------------------- Set and Erase

  function Get(s: State, key: text): Option<text> {
    if s == [] then None else if s[0].key == key then Some(s[0].value) else Get(s[1..], key)
  }

  lemma {:induction false} GetIsContains(s: State, key: text)
    ensures Get(s, key).Some? <==> Contains(s, key)
  {
    if s != [] {
      GetIsContains(s[1..], key);
      if Contains(s, key) && s[0].key != key {
        var i :| 0 <= i < |s| && s[i].key == key;
        assert s[1..][i - 1].key == key;
      }
      if Contains(s[1..], key) {
        var i :| 0 <= i < |s| - 1 && s[1..][i].key == key;
        assert s[i + 1].key == key;
      }
      if s[0].key == key { assert Contains(s, key); }
    }
  }

  /** The entries with any other key, in order. */
  function Except(s: State, key: text): (r: State) {
    if s == [] then [] else (if s[0].key == key then [] else [s[0]]) + Except(s[1..], key)
  }

  /** The loop of AppendExcept. */
  method AppendExcept(source: State, key: text, destination: State) returns (r: State)
    ensures r == destination + Except(source, key)
  {
    r := destination;
    assert source[0..] == source;
    for i := 0 to |source|
      invariant r + Except(source[i..], key) == destination + Except(source, key)
    {
      assert source[i..][1..] == source[i + 1..];
      var more := Except(source[i + 1..], key);
      if source[i].key != key {
        assert r + ([source[i]] + more) == r + [source[i]] + more;
        r := r + [source[i]];
      } else {
        assert [] + more == more;
      }
    }
  }

  /** With unique keys, leaving a key out removes its one entry and nothing else. */
  lemma {:induction false} ExceptRemovesOne(s: State, i: nat)
    requires UniqueKeys(s) && i < |s|
    ensures Except(s, s[i].key) == s[..i] + s[i + 1..]
  {
    if i == 0 {
      ExceptAbsent(s[1..], s[0].key);
      assert [] + s[1..] == s[..0] + s[1..];
    } else {
      ExceptRemovesOne(s[1..], i - 1);
      assert s[1..][..i - 1] == s[1..i] && s[1..][i..] == s[i + 1..];
      assert [s[0]] + (s[1..i] + s[i + 1..]) == s[..i] + s[i + 1..];
    }
  }

  lemma {:induction false} ExceptAbsent(s: State, key: text)
    requires forall i :: 0 <= i < |s| ==> s[i].key != key
    ensures Except(s, key) == s
  {
    if s != [] {
      ExceptAbsent(s[1..], key);
      assert [s[0]] + s[1..] == s;
    }
  }

  lemma ExceptKeeps(s: State, key: text)
    requires IsState(s)
    ensures IsState(Except(s, key)) && !Contains(Except(s, key), key)
    ensures |Except(s, key)| == |s| - if Contains(s, key) then 1 else 0
  {
    hide IsEntry, Except;
    if Contains(s, key) {
      var i :| 0 <= i < |s| && s[i].key == key;
      ExceptRemovesOne(s, i);
    } else {
      ExceptAbsent(s, key);
    }
  }

  /** TraceState::Set: refused and unchanged, or the entry leads and the others follow in their old order. */
  method Set(s: State, key: text, value: text) returns (r: State)
    requires IsState(s)
    ensures IsState(r)
    ensures !IsValidKey(key) || !IsValidValue(value) || (!Contains(s, key) && |s| >= 32) ==> r == s
    ensures IsValidKey(key) && IsValidValue(value) && !Contains(s, key) && |s| < 32 ==> r == [Entry(key, value)] + s
    ensures IsValidKey(key) && IsValidValue(value) ==>
              forall i :: 0 <= i < |s| && s[i].key == key ==> r == [Entry(key, value)] + s[..i] + s[i + 1..]
  {
    hide IsValidKey, IsValidValue, Except;
    GetIsContains(s, key);
    var replacing := Get(s, key).Some?;
    if !IsValidKey(key) || !IsValidValue(value) || (!replacing && |s| >= MAX_ENTRIES) {
      return s;
    }
    r := AppendExcept(s, key, [Entry(key, value)]);
    Leads(s, Entry(key, value));
  }

  lemma LeadIsState(e: Entry, rest: State)
    requires IsEntry(e) && IsState(rest) && |rest| < MAX_ENTRIES && !Contains(rest, e.key)
    ensures IsState([e] + rest)
  {
    hide IsEntry;
    var r := [e] + rest;
    assert forall i :: 1 <= i < |r| ==> r[i] == rest[i - 1];
    forall i, j | 0 <= i < j < |r|
      ensures r[i].key != r[j].key
    {
      assert r[j] == rest[j - 1];
    }
  }

  lemma Leads(s: State, e: Entry)
    requires IsState(s) && IsEntry(e) && (Contains(s, e.key) || |s| < MAX_ENTRIES)
    ensures IsState([e] + Except(s, e.key))
    ensures !Contains(s, e.key) ==> [e] + Except(s, e.key) == [e] + s
    ensures forall i :: 0 <= i < |s| && s[i].key == e.key ==> [e] + Except(s, e.key) == [e] + s[..i] + s[i + 1..]
  {
    hide IsState, IsEntry, Except;
    StateFacts(s);
    ExceptKeeps(s, e.key);
    LeadIsState(e, Except(s, e.key));
    if !Contains(s, e.key) { ExceptAbsent(s, e.key); }
    forall i | 0 <= i < |s| && s[i].key == e.key
      ensures [e] + Except(s, e.key) == [e] + s[..i] + s[i + 1..]
    {
      ExceptRemovesOne(s, i);
      assert [e] + (s[..i] + s[i + 1..]) == [e] + s[..i] + s[i + 1..];
    }
  }

  lemma StateFacts(s: State)
    requires IsState(s)
    ensures |s| <= MAX_ENTRIES && UniqueKeys(s)
  {}

  /** TraceState::Erase, with its early return for an absent key. */
  method Erase(s: State, key: text) returns (r: State)
    requires IsState(s)
    ensures IsState(r) && !Contains(r, key)
    ensures !Contains(s, key) ==> r == s
    ensures forall i :: 0 <= i < |s| && s[i].key == key ==> r == s[..i] + s[i + 1..]
  {
    hide IsEntry, Except;
    GetIsContains(s, key);
    if Get(s, key).None? {
      return s;
    }
    Removes(s, key);
    if |s| == 1 {
      return [];
    }
    r := AppendExcept(s, key, []);
    assert r == Except(s, key);
  }

  lemma Removes(s: State, key: text)
    requires IsState(s)
    ensures IsState(Except(s, key)) && !Contains(Except(s, key), key)
    ensures |Except(s, key)| == |s| - if Contains(s, key) then 1 else 0
    ensures forall i :: 0 <= i < |s| && s[i].key == key ==> Except(s, key) == s[..i] + s[i + 1..]
  {
    hide IsEntry, Except;
    ExceptKeeps(s, key);
    forall i | 0 <= i < |s| && s[i].key == key
      ensures Except(s, key) == s[..i] + s[i + 1..]
    {
      ExceptRemovesOne(s, i);
    }
  }

  // ---------------------------------------------------------------- Every reachable state

  datatype Op = FromHeaderOp(header: text) | SetOp(key: text, value: text) | EraseOp(ekey: text)

  /** Runs a program of calls; whatever it is, the state is one and survives a round trip. */
  method Reach(ops: seq<Op>) returns (s: State)
    ensures IsState(s) && FromHeader(Header(s)) == s
  {
    hide IsState, FromHeader, Header;
    s := [];
    EmptyIsState();
    for i := 0 to |ops|
      invariant IsState(s)
    {
      match ops[i] {
        case FromHeaderOp(h) => s := Parse(h);
        case SetOp(k, v) => s := Set(s, k, v);
        case EraseOp(k) => s := Erase(s, k);
      }
    }
    HeaderRoundTrip(s);
  }

  /** The state `a=1`. */
  lemma OneEntry()
    ensures IsState([Entry([0x61], [0x31])]) && Header([Entry([0x61], [0x31])]) == [0x61, EQUALS, 0x31]
  {
    var e := Entry([0x61], [0x31]);
    FindIs(e.key, AT, 1);
    assert IsEntry(e);
    assert Member(e) == [0x61, EQUALS, 0x31];
    assert Written([e]) == [Member(e)];
  }

  lemma EmptyIsState()
    ensures IsState([])
  {}
}
