/**
 The thread's current-context slot and the scopes that install into it: construction, move and
 destruction, and the stack discipline over whole runs.
 */
module ScopedContext {
  import Propagator
  import Baggage

  /** What travels with a request: the active span and the baggage. */
  datatype Context = Context(span: Propagator.Context, baggage: Baggage.Bag)

  // ---------------------------------------------------------------- The objects

  /** The one slot of a thread. */
  class Slot {
    var current: Context

    constructor (original: Context)
      ensures current == original
    {
      current := original;
    }
  }

  class ScopedContext {
    var previous: Context
    var armed: bool

    /** The default constructor: an inert scope. */
    constructor Inert(blank: Context)
      ensures this.View() == Scope(blank, false)
    {
      previous := blank;
      armed := false;
    }

    /** Installs ctx and keeps what it displaced. */
    constructor (slot: Slot, ctx: Context)
      modifies slot
      ensures this.View() == Scope(old(slot.current), true) && slot.current == ctx
    {
      previous := slot.current;
      armed := true;
      new;
      slot.current := ctx;
    }

    /** The move constructor; husk is whatever moving leaves behind in the source. */
    constructor Moved(other: ScopedContext, husk: Context)
      modifies other
      ensures this.View() == old(other.View()) && other.View() == Scope(husk, false)
    {
      previous := other.previous;
      armed := other.armed;
      new;
      other.previous := husk;
      other.armed := false;
    }

    /** The destructor. */
    method Destroy(slot: Slot)
      modifies slot
      ensures slot.current == if armed then previous else old(slot.current)
    {
      if armed {
        slot.current := previous;
      }
    }

    ghost function View(): Scope
      reads this
    {
      Scope(previous, armed)
    }
  }

  // ---------------------------------------------------------------- Steps

  datatype Scope = Scope(previous: Context, armed: bool)
  datatype World = World(current: Context, scopes: map<nat, Scope>)

  /** What a program may do with scopes; each live scope has a name. */
  datatype Op =
    | MakeInert(id: nat, blank: Context)
    | Install(id: nat, ctx: Context)
    | Move(from: nat, to: nat, husk: Context)
    | Destroy(id: nat)

  /** Only live scopes are moved or destroyed, and a new scope has a new name. */
  predicate Enabled(w: World, op: Op) {
    match op
    case MakeInert(id, _) => id !in w.scopes
    case Install(id, _) => id !in w.scopes
    case Move(from, to, _) => from in w.scopes && to !in w.scopes
    case Destroy(id) => id in w.scopes
  }

  function Step(w: World, op: Op): World
    requires Enabled(w, op)
  {
    match op
    case MakeInert(id, blank) => w.(scopes := w.scopes[id := Scope(blank, false)])
    case Install(id, ctx) => World(ctx, w.scopes[id := Scope(w.current, true)])
    case Move(from, to, husk) => w.(scopes := w.scopes[to := w.scopes[from]][from := Scope(husk, false)])
    case Destroy(id) =>
      World(if w.scopes[id].armed then w.scopes[id].previous else w.current, w.scopes - {id})
  }

  // ---------------------------------------------------------------- The reference: a plain stack

  /** An installed context and the scope that now answers for it. */
  datatype Frame = Frame(id: nat, ctx: Context)

  predicate Holds(st: seq<Frame>, id: nat) { exists i :: 0 <= i < |st| && st[i].id == id }

  function Rename(st: seq<Frame>, from: nat, to: nat): (r: seq<Frame>)
    ensures |r| == |st|
    ensures forall i :: 0 <= i < |st| ==> r[i] == Frame(if st[i].id == from then to else st[i].id, st[i].ctx)
  {
    seq(|st|, i requires 0 <= i < |st| => Frame(if st[i].id == from then to else st[i].id, st[i].ctx))
  }

  /** Installing pushes, moving renames, destroying the innermost pops; anything else leaves the stack alone. */
  function Track(st: seq<Frame>, op: Op): seq<Frame> {
    match op
    case MakeInert(_, _) => st
    case Install(id, ctx) => st + [Frame(id, ctx)]
    case Move(from, to, _) => Rename(st, from, to)
    case Destroy(id) => if st != [] && st[|st| - 1].id == id then st[..|st| - 1] else st
  }

  /** A scope that answers for an installed context may die only when it is the innermost one. */
  predicate Disciplined(st: seq<Frame>, op: Op) {
    op.Destroy? && Holds(st, op.id) ==> st[|st| - 1].id == op.id
  }

  function Innermost(st: seq<Frame>, original: Context): Context { if st == [] then original else st[|st| - 1].ctx }

  /** What the scope at position i displaced when it was installed. */
  function Displaced(st: seq<Frame>, i: nat, original: Context): Context
    requires i <= |st|
  {
    if i == 0 then original else st[i - 1].ctx
  }

  predicate FrameOk(w: World, st: seq<Frame>, i: nat, original: Context)
    requires i < |st|
  {
    st[i].id in w.scopes && w.scopes[st[i].id] == Scope(Displaced(st, i, original), true)
  }

  predicate Distinct(st: seq<Frame>) { forall i, j :: 0 <= i < j < |st| ==> st[i].id != st[j].id }

  predicate ArmedAreHeld(w: World, st: seq<Frame>) {
    forall id :: id in w.scopes && w.scopes[id].armed ==> Holds(st, id)
  }

  /** The slot and every armed scope agree with the stack. */
  predicate Inv(w: World, st: seq<Frame>, original: Context) {
    && w.current == Innermost(st, original) && Distinct(st) && ArmedAreHeld(w, st)
    && forall i :: 0 <= i < |st| ==> FrameOk(w, st, i, original)
  }

  lemma InertKeeps(w: World, st: seq<Frame>, original: Context, id: nat, blank: Context)
    requires Inv(w, st, original) && id !in w.scopes
    ensures Inv(Step(w, MakeInert(id, blank)), st, original)
  {
    hide Holds;
    var w' := Step(w, MakeInert(id, blank));
    forall i | 0 <= i < |st|
      ensures FrameOk(w', st, i, original)
    {
      assert FrameOk(w, st, i, original);
    }
  }

  lemma InstallKeeps(w: World, st: seq<Frame>, original: Context, id: nat, ctx: Context)
    requires Inv(w, st, original) && id !in w.scopes
    ensures Inv(Step(w, Install(id, ctx)), st + [Frame(id, ctx)], original)
  {
    var w', st' := Step(w, Install(id, ctx)), st + [Frame(id, ctx)];
    forall i | 0 <= i < |st'|
      ensures FrameOk(w', st', i, original)
    {
      if i < |st| { assert FrameOk(w, st, i, original); }
    }
    forall i, j | 0 <= i < j < |st'|
      ensures st'[i].id != st'[j].id
    {
      assert FrameOk(w, st, i, original);
    }
    forall x | x in w'.scopes && w'.scopes[x].armed
      ensures Holds(st', x)
    {
      if x == id { assert st'[|st|].id == id; } else {
        var i :| 0 <= i < |st| && st[i].id == x;
        assert st'[i].id == x;
      }
    }
  }

  lemma MoveKeeps(w: World, st: seq<Frame>, original: Context, from: nat, to: nat, husk: Context)
    requires Inv(w, st, original) && from in w.scopes && to !in w.scopes
    ensures Inv(Step(w, Move(from, to, husk)), Rename(st, from, to), original)
  {
    var w', st' := Step(w, Move(from, to, husk)), Rename(st, from, to);
    forall i | 0 <= i < |st'|
      ensures FrameOk(w', st', i, original)
    {
      assert FrameOk(w, st, i, original);
    }
    MoveHeld(w, st, from, to, husk);
    forall i, j | 0 <= i < j < |st'|
      ensures st'[i].id != st'[j].id
    {
      assert FrameOk(w, st, i, original) && FrameOk(w, st, j, original) && st[i].id != st[j].id;
    }
  }

  lemma MoveHeld(w: World, st: seq<Frame>, from: nat, to: nat, husk: Context)
    requires ArmedAreHeld(w, st) && from in w.scopes && to !in w.scopes
    ensures ArmedAreHeld(Step(w, Move(from, to, husk)), Rename(st, from, to))
  {
    var w', st' := Step(w, Move(from, to, husk)), Rename(st, from, to);
    forall x | x in w'.scopes && w'.scopes[x].armed
      ensures Holds(st', x)
    {
      var y := if x == to then from else x;
      assert Holds(st, y);
      var i :| 0 <= i < |st| && st[i].id == y;
      assert st'[i].id == x;
    }
  }

  lemma DestroyKeeps(w: World, st: seq<Frame>, original: Context, id: nat)
    requires Inv(w, st, original) && id in w.scopes && Disciplined(st, Destroy(id))
    ensures Inv(Step(w, Destroy(id)), Track(st, Destroy(id)), original)
  {
    hide Inv;
    ArmedIsTop(w, st, original, id);
    if w.scopes[id].armed {
      PopKeeps(w, st, original);
    } else {
      InertDies(w, st, original, id);
    }
  }

  lemma ArmedIsTop(w: World, st: seq<Frame>, original: Context, id: nat)
    requires Inv(w, st, original) && id in w.scopes && Disciplined(st, Destroy(id))
    ensures w.scopes[id].armed <==> st != [] && st[|st| - 1].id == id
  {
    if st != [] { assert FrameOk(w, st, |st| - 1, original); }
    if w.scopes[id].armed { assert Holds(st, id); }
  }

  lemma InertDies(w: World, st: seq<Frame>, original: Context, id: nat)
    requires Inv(w, st, original) && id in w.scopes && !w.scopes[id].armed
    ensures !Holds(st, id) && Inv(Step(w, Destroy(id)), st, original)
  {
    var w' := Step(w, Destroy(id));
    forall i | 0 <= i < |st|
      ensures st[i].id != id && FrameOk(w', st, i, original)
    {
      assert FrameOk(w, st, i, original);
    }
  }

  lemma PopKeeps(w: World, st: seq<Frame>, original: Context)
    requires Inv(w, st, original) && st != []
    ensures st[|st| - 1].id in w.scopes && Inv(Step(w, Destroy(st[|st| - 1].id)), st[..|st| - 1], original)
  {
    var n := |st| - 1;
    var id, st' := st[n].id, st[..n];
    assert FrameOk(w, st, n, original);
    var w' := Step(w, Destroy(id));
    forall i | 0 <= i < |st'|
      ensures FrameOk(w', st', i, original)
    {
      assert FrameOk(w, st, i, original) && st[i].id != st[n].id;
    }
    forall x | x in w'.scopes && w'.scopes[x].armed
      ensures Holds(st', x)
    {
      assert Holds(st, x);
      var i :| 0 <= i < |st| && st[i].id == x;
      assert st'[i].id == x;
    }
  }

  lemma StepKeeps(w: World, st: seq<Frame>, original: Context, op: Op)
    requires Inv(w, st, original) && Enabled(w, op) && Disciplined(st, op)
    ensures Inv(Step(w, op), Track(st, op), original)
  {
    hide Inv;
    match op
    case MakeInert(id, blank) => InertKeeps(w, st, original, id, blank);
    case Install(id, ctx) => InstallKeeps(w, st, original, id, ctx);
    case Move(from, to, husk) => MoveKeeps(w, st, original, from, to, husk);
    case Destroy(id) => DestroyKeeps(w, st, original, id);
  }

  // ---------------------------------------------------------------- Whole runs

  /** The stack a program builds, from its operations alone. */
  function StackOf(ops: seq<Op>): seq<Frame> {
    if ops == [] then [] else Track(StackOf(ops[..|ops| - 1]), ops[|ops| - 1])
  }

  function Start(original: Context): World { World(original, map[]) }

  /** ops can run from a thread with no scopes, and armed scopes die innermost first. */
  predicate Runs(original: Context, ops: seq<Op>)
    decreases |ops|, 0
  {
    if ops == [] then true else
    var init, op := ops[..|ops| - 1], ops[|ops| - 1];
    Runs(original, init) && Enabled(After(original, init), op) && Disciplined(StackOf(init), op)
  }

  function After(original: Context, ops: seq<Op>): World
    requires Runs(original, ops)
    decreases |ops|, 1
  {
    if ops == [] then Start(original) else Step(After(original, ops[..|ops| - 1]), ops[|ops| - 1])
  }

  /**
   Over every disciplined run the current context is the innermost live one, and once no armed scope
   is left the original context is back.
   */
  lemma {:induction false} CurrentIsInnermost(original: Context, ops: seq<Op>)
    requires Runs(original, ops)
    ensures Inv(After(original, ops), StackOf(ops), original)
    ensures After(original, ops).current == Innermost(StackOf(ops), original)
    ensures (forall id :: id in After(original, ops).scopes ==> !After(original, ops).scopes[id].armed)
            ==> After(original, ops).current == original
  {
    hide Inv, Step, Track;
    if ops == [] {
      StartInv(original);
    } else {
      var init := ops[..|ops| - 1];
      CurrentIsInnermost(original, init);
      StepKeeps(After(original, init), StackOf(init), original, ops[|ops| - 1]);
    }
    InvCurrent(After(original, ops), StackOf(ops), original);
  }

  lemma StartInv(original: Context)
    ensures Inv(Start(original), [], original)
  {}

  lemma InvCurrent(w: World, st: seq<Frame>, original: Context)
    requires Inv(w, st, original)
    ensures w.current == Innermost(st, original)
    ensures (forall id :: id in w.scopes ==> !w.scopes[id].armed) ==> w.current == original
  {
    if st != [] { assert FrameOk(w, st, 0, original); }
  }

  /** An inert or moved-from scope may die at any time: nothing changes. */
  lemma InertDiesQuietly(original: Context, ops: seq<Op>, id: nat)
    requires Runs(original, ops) && id in After(original, ops).scopes && !After(original, ops).scopes[id].armed
    ensures Disciplined(StackOf(ops), Destroy(id)) && Track(StackOf(ops), Destroy(id)) == StackOf(ops)
    ensures Step(After(original, ops), Destroy(id)).current == After(original, ops).current
  {
    hide Inv, After, StackOf, Runs;
    CurrentIsInnermost(original, ops);
    InertDies(After(original, ops), StackOf(ops), original, id);
    assert StackOf(ops) != [] ==> StackOf(ops)[|StackOf(ops)| - 1].id != id;
  }

  /**
   Out of order, the slot is left with what the dying scope had displaced; that is right exactly when
   it is the context of the innermost survivor.
   */
  lemma OutOfOrder(original: Context, ops: seq<Op>, i: nat)
    requires Runs(original, ops) && i < |StackOf(ops)| - 1
    ensures var st := StackOf(ops);
            && st[i].id in After(original, ops).scopes
            && Step(After(original, ops), Destroy(st[i].id)).current == Displaced(st, i, original)
            && (Step(After(original, ops), Destroy(st[i].id)).current == Innermost(st[..i] + st[i + 1..], original)
                <==> Displaced(st, i, original) == st[|st| - 1].ctx)
  {
    hide After, StackOf, Runs, Distinct, ArmedAreHeld;
    CurrentIsInnermost(original, ops);
    var st := StackOf(ops);
    assert FrameOk(After(original, ops), st, i, original);
    assert (st[..i] + st[i + 1..])[|st| - 2] == st[|st| - 1];
  }

  // ---------------------------------------------------------------- The objects follow the steps

  /** A thread running such a program on real scope objects. */
  class Thread {
    const slot: Slot
    var scopes: map<nat, ScopedContext>

    ghost predicate Valid()
      reads this
    {
      forall a, b :: a in scopes && b in scopes && a != b ==> scopes[a] != scopes[b]
    }

    ghost function Abs(): World
      reads this, slot, set id | id in scopes :: scopes[id]
    {
      World(slot.current, map id | id in scopes :: scopes[id].View())
    }

    constructor (original: Context)
      ensures Valid() && fresh(slot) && scopes == map[] && Abs() == Start(original)
    {
      slot := new Slot(original);
      scopes := map[];
    }

    /** Scope objects are new or stay under their names. */
    twostate predicate Kept(was: map<nat, ScopedContext>)
      reads this
    {
      forall id :: id in scopes ==> fresh(scopes[id]) || (id in was && scopes[id] == was[id])
    }

    method NewInert(id: nat, blank: Context)
      requires Valid() && Enabled(Abs(), MakeInert(id, blank))
      modifies this, slot, set id | id in scopes :: scopes[id]
      ensures Valid() && Abs() == Step(old(Abs()), MakeInert(id, blank))
      ensures Kept(old(scopes))
    {
      ghost var was := Abs();
      var s := new ScopedContext.Inert(blank);
      scopes := scopes[id := s];
      assert Abs().scopes == Step(was, MakeInert(id, blank)).scopes;
    }

    method NewScope(id: nat, ctx: Context)
      requires Valid() && Enabled(Abs(), Install(id, ctx))
      modifies this, slot, set id | id in scopes :: scopes[id]
      ensures Valid() && Abs() == Step(old(Abs()), Install(id, ctx))
      ensures Kept(old(scopes))
    {
      ghost var was := Abs();
      var s := new ScopedContext(slot, ctx);
      scopes := scopes[id := s];
      assert Abs().scopes == Step(was, Install(id, ctx)).scopes;
    }

    method MoveScope(from: nat, to: nat, husk: Context)
      requires Valid() && Enabled(Abs(), Move(from, to, husk))
      modifies this, slot, set id | id in scopes :: scopes[id]
      ensures Valid() && Abs() == Step(old(Abs()), Move(from, to, husk))
      ensures Kept(old(scopes))
    {
      ghost var was := Abs();
      var s := new ScopedContext.Moved(scopes[from], husk);
      scopes := scopes[to := s];
      assert Abs().scopes == Step(was, Move(from, to, husk)).scopes;
    }

    method EndScope(id: nat)
      requires Valid() && Enabled(Abs(), Op.Destroy(id))
      modifies this, slot, set id | id in scopes :: scopes[id]
      ensures Valid() && Abs() == Step(old(Abs()), Op.Destroy(id))
      ensures Kept(old(scopes))
    {
      ghost var was := Abs();
      scopes[id].Destroy(slot);
      scopes := scopes - {id};
      assert Abs().scopes == Step(was, Op.Destroy(id)).scopes;
    }

    method Perform(op: Op)
      requires Valid() && Enabled(Abs(), op)
      modifies this, slot, set id | id in scopes :: scopes[id]
      ensures Valid() && Abs() == Step(old(Abs()), op)
      ensures Kept(old(scopes))
    {
      hide Thread.Valid, Thread.Abs, Thread.Kept;
      match op {
        case MakeInert(id, blank) => NewInert(id, blank);
        case Install(id, ctx) => NewScope(id, ctx);
        case Move(from, to, husk) => MoveScope(from, to, husk);
        case Destroy(id) => EndScope(id);
      }
    }
  }

  /** Runs a whole program on fresh objects: CurrentContext is the innermost live context. */
  method RunProgram(original: Context, ops: seq<Op>) returns (current: Context)
    requires Runs(original, ops)
    ensures current == Innermost(StackOf(ops), original)
  {
    var t := new Thread(original);
    assert ops[..0] == [];
    for i := 0 to |ops|
      invariant t.Valid() && fresh(t) && fresh(t.slot) && (forall id :: id in t.scopes ==> fresh(t.scopes[id]))
      invariant Runs(original, ops[..i]) && t.Abs() == After(original, ops[..i])
    {
      RunsPrefix(original, ops, i + 1);
      assert ops[..i + 1][..i] == ops[..i];
      t.Perform(ops[i]);
    }
    assert ops[..|ops|] == ops;
    CurrentIsInnermost(original, ops);
    current := t.slot.current;
  }

  lemma {:induction false} RunsPrefix(original: Context, ops: seq<Op>, k: nat)
    requires Runs(original, ops) && k <= |ops|
    ensures Runs(original, ops[..k])
    decreases |ops|
  {
    if k == |ops| {
      assert ops[..k] == ops;
    } else {
      assert ops[..|ops| - 1][..k] == ops[..k];
      RunsPrefix(original, ops[..|ops| - 1], k);
    }
  }
}
