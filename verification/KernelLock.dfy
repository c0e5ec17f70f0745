/** The recursive big kernel lock (kernel/tkernel/smp_lock.c), one memory access per step, for any
    number of processors and any interleaving. */
module KernelLock {
  import opened Options

  /** Which call is giving the lock up. */
  datatype Exit = Leaving | Abandoning | Suspending | Dying

  /** Where a processor is. Enter keeps the interrupt mask it sampled and, when called from
      knl_kernel_lock_resume, the depth to restore (1 otherwise). */
  datatype Pc =
    | Out
    | Spin(saved: bool, deep: nat)
    | Claim(saved: bool, deep: nat)
    | Check(saved: bool, deep: nat)
    | Unclaim(saved: bool, deep: nat, won: bool)
    | Drop(exit: Exit)
    | Clear(exit: Exit)
    | Dropped(exit: Exit)
    | Stuck

  /** One processor: its place in the code, lock depth, saved and current PRIMASK, whether its
      current task has been killed, and the depths its suspends returned that are not resumed yet,
      the last one first. */
  datatype Core = Core(pc: Pc, depth: nat, primask: bool, masked: bool, dead: bool, detached: seq<nat>)

  /** word is knl_lock_word (0 free, core + 1 held); hw is the owner of the hardware spinlock. */
  datatype Lock = Lock(word: nat, hw: Option<nat>, core: seq<Core>)

  datatype Action =
    | Enter | Resume | See | ClaimHw | TakeWord | ReleaseHw
    | Leave | Abandon | Suspend | ClaimDrop | ClearWord | ReleaseDrop
    | Kill | Discard

  function Put(x: Lock, c: nat, k: Core): Lock
    requires c < |x.core|
  {
    x.(core := x.core[c := k])
  }

  /** Start spinning, interrupts masked (the non-recursive part of knl_kernel_lock_enter). */
  function Begin(k: Core, deep: nat): Core {
    k.(pc := Spin(k.masked, deep), masked := true)
  }

  /** Winning: depth and saved mask are set, and a task killed meanwhile goes straight out again. */
  function Win(k: Core): Core
    requires k.pc.Unclaim?
  {
    if k.dead then k.(pc := Drop(Dying), primask := k.pc.saved)
    else k.(pc := Out, depth := if k.pc.deep > 1 then k.pc.deep else 1, primask := k.pc.saved)
  }

  /** Processor c performs one step. A step that does not apply changes nothing. */
  function Do(x: Lock, c: nat, a: Action): (y: Lock)
    requires c < |x.core|
    ensures |y.core| == |x.core|
    ensures forall d :: 0 <= d < |x.core| && d != c ==> y.core[d] == x.core[d]
  {
    var k := x.core[c];
    match a
    case Enter =>
      if !k.pc.Out? then x
      else if x.word == c + 1 then Put(x, c, k.(depth := k.depth + 1))
      else Put(x, c, Begin(k, 1))
    case Resume =>
      if !k.pc.Out? || k.detached == [] || k.detached[0] == 0 || x.word == c + 1 then x
      else Put(x, c, Begin(k, k.detached[0]).(detached := k.detached[1..]))
    case See => if k.pc.Spin? && x.word == 0 then Put(x, c, k.(pc := Claim(k.pc.saved, k.pc.deep))) else x
    case ClaimHw => if k.pc.Claim? && x.hw.None? then Put(x, c, k.(pc := Check(k.pc.saved, k.pc.deep))).(hw := Some(c)) else x
    case TakeWord =>
      if !k.pc.Check? then x
      else if x.word == 0 then Put(x, c, k.(pc := Unclaim(k.pc.saved, k.pc.deep, true))).(word := c + 1)
      else Put(x, c, k.(pc := Unclaim(k.pc.saved, k.pc.deep, false)))
    case ReleaseHw =>
      if !k.pc.Unclaim? then x
      else if k.pc.won then Put(x, c, Win(k)).(hw := None)
      else Put(x, c, k.(pc := Spin(k.pc.saved, k.pc.deep))).(hw := None)
    case Leave =>
      if !k.pc.Out? || x.word != c + 1 || k.depth == 0 then x
      else if k.depth > 1 then Put(x, c, k.(depth := k.depth - 1))
      else Put(x, c, k.(depth := 0, pc := Drop(Leaving)))
    case Abandon => if !k.pc.Out? || x.word != c + 1 then x else Put(x, c, k.(depth := 0, pc := Drop(Abandoning)))
    case Suspend =>
      if !k.pc.Out? || k.depth == 0 || x.word != c + 1 then x
      else Put(x, c, k.(depth := 0, detached := [k.depth] + k.detached, pc := Drop(Suspending)))
    case ClaimDrop => if k.pc.Drop? && x.hw.None? then Put(x, c, k.(pc := Clear(k.pc.exit))).(hw := Some(c)) else x
    case ClearWord => if k.pc.Clear? then Put(x, c, k.(pc := Dropped(k.pc.exit))).(word := 0) else x
    case ReleaseDrop =>
      if !k.pc.Dropped? then x
      else Put(x, c, match k.pc.exit
                     case Leaving => k.(pc := Out, masked := k.primask)
                     case Dying => k.(pc := Stuck, masked := k.primask)
                     case _ => k.(pc := Out)).(hw := None)
    case Kill => Put(x, c, k.(dead := true))
    case Discard => if k.pc.Stuck? then Put(x, c, k.(pc := Out, dead := false, masked := false)) else x
  }

  // ----- What every reachable state satisfies

  /** c owns the lock word: inside its critical section, or just before or after it. */
  predicate Owner(k: Core) {
    (k.pc.Out? && k.depth > 0) || (k.pc.Unclaim? && k.pc.won) || k.pc.Drop? || k.pc.Clear?
  }

  /** c owns the hardware spinlock. */
  predicate HwOwner(k: Core) {
    k.pc.Check? || k.pc.Unclaim? || k.pc.Clear? || k.pc.Dropped?
  }

  ghost predicate CoreOk(x: Lock, c: nat)
    requires c < |x.core|
  {
    var k := x.core[c];
    && (x.word == c + 1 <==> Owner(k))
    && (x.hw == Some(c) <==> HwOwner(k))
    && (!k.pc.Out? ==> k.depth == 0)
    && (k.depth > 0 || !(k.pc.Out? || k.pc.Stuck?) ==> k.masked)
  }

  ghost predicate Inv(x: Lock) {
    && x.word <= |x.core|
    && (x.hw.Some? ==> x.hw.value < |x.core|)
    && (forall c :: 0 <= c < |x.core| ==> CoreOk(x, c))
  }

  lemma StepInv(x: Lock, c: nat, a: Action)
    requires Inv(x) && c < |x.core|
    ensures Inv(Do(x, c, a))
  {
    var y := Do(x, c, a);
    assert CoreOk(x, c);
    forall d | 0 <= d < |y.core| ensures CoreOk(y, d) {
      assert CoreOk(x, d);
    }
  }

  /** Processor c is inside its critical section. */
  predicate Inside(x: Lock, c: nat) {
    c < |x.core| && x.core[c].pc.Out? && x.core[c].depth > 0
  }

  predicate Start(x: Lock) {
    x.word == 0 && x.hw.None? && forall c :: 0 <= c < |x.core| ==> x.core[c].pc.Out? && x.core[c].depth == 0
  }

  predicate Named(x: Lock, sched: seq<(nat, Action)>) {
    forall i :: 0 <= i < |sched| ==> sched[i].0 < |x.core|
  }

  /** A run: the steps of all processors in any order. */
  function Steps(x: Lock, sched: seq<(nat, Action)>): (y: Lock)
    requires forall i :: 0 <= i < |sched| ==> sched[i].0 < |x.core|
    ensures |y.core| == |x.core|
    decreases sched
  {
    if sched == [] then x else Steps(Do(x, sched[0].0, sched[0].1), sched[1..])
  }

  lemma {:induction false} StepsInv(x: Lock, sched: seq<(nat, Action)>)
    requires Inv(x) && forall i :: 0 <= i < |sched| ==> sched[i].0 < |x.core|
    ensures Inv(Steps(x, sched))
    decreases sched
  {
    if sched != [] {
      StepInv(x, sched[0].0, sched[0].1);
      StepsInv(Do(x, sched[0].0, sched[0].1), sched[1..]);
    }
  }

  /** After any schedule at most one processor is inside, its interrupts are masked, the lock word
      names it, and a depth is non-zero only there. */
  lemma MutualExclusion(x: Lock, sched: seq<(nat, Action)>, c: nat, d: nat)
    requires Start(x) && forall i :: 0 <= i < |sched| ==> sched[i].0 < |x.core|
    ensures var y := Steps(x, sched);
      && (Inside(y, c) && Inside(y, d) ==> c == d)
      && (Inside(y, c) ==> y.word == c + 1 && y.core[c].masked)
      && (c < |y.core| && y.core[c].depth > 0 ==> Inside(y, c))
  {
    assert forall e :: 0 <= e < |x.core| ==> CoreOk(x, e);
    StepsInv(x, sched);
    var y := Steps(x, sched);
    if c < |y.core| { assert CoreOk(y, c); }
    if d < |y.core| { assert CoreOk(y, d); }
  }

  // ----- Nesting, masks and detached sections, whatever the other processors do meanwhile

  /** Steps of processors other than c. */
  predicate Others(x: Lock, c: nat, sched: seq<(nat, Action)>) {
    forall i :: 0 <= i < |sched| ==> sched[i].0 < |x.core| && sched[i].0 != c
  }

  lemma {:induction false} OthersKeep(x: Lock, c: nat, sched: seq<(nat, Action)>)
    requires Inv(x) && c < |x.core| && Others(x, c, sched)
    ensures Inv(Steps(x, sched)) && Steps(x, sched).core[c] == x.core[c]
    ensures Owner(x.core[c]) ==> Steps(x, sched).word == c + 1
    ensures HwOwner(x.core[c]) ==> Steps(x, sched).hw == Some(c)
    decreases sched
  {
    assert CoreOk(x, c);
    if sched != [] {
      var y := Do(x, sched[0].0, sched[0].1);
      StepInv(x, sched[0].0, sched[0].1);
      OthersKeep(y, c, sched[1..]);
    }
  }

  /** An inner enter and leave, with anything from the others in between, change nothing for c. */
  lemma NestedPair(x: Lock, c: nat, sched: seq<(nat, Action)>)
    requires Inv(x) && Inside(x, c) && Others(x, c, sched)
    ensures var y := Steps(Do(x, c, Enter), sched);
      && y.core[c] == x.core[c].(depth := x.core[c].depth + 1) && y.word == c + 1
      && Do(y, c, Leave).core[c] == x.core[c] && Do(y, c, Leave).word == c + 1
  {
    assert CoreOk(x, c);
    StepInv(x, c, Enter);
    OthersKeep(Do(x, c, Enter), c, sched);
    assert CoreOk(Steps(Do(x, c, Enter), sched), c);
  }

  /** How deep c is after its enters and leaves among sched; a kill from elsewhere does not count. */
  function Level(d: int, c: nat, sched: seq<(nat, Action)>): int
    decreases sched
  {
    if sched == [] then d else Level(NextLevel(d, c, sched[0]), c, sched[1..])
  }

  function NextLevel(d: int, c: nat, step: (nat, Action)): int {
    if step == (c, Enter) then d + 1 else if step == (c, Leave) then d - 1 else d
  }

  /** c only enters and leaves, and never leaves the outermost level; the others do what they like. */
  predicate StaysIn(d: int, c: nat, sched: seq<(nat, Action)>)
    decreases sched
  {
    && d >= 1
    && (sched == [] || ((sched[0].0 == c ==> sched[0].1 in [Enter, Leave, Kill]) && StaysIn(NextLevel(d, c, sched[0]), c, sched[1..])))
  }

  /** However enters and leaves nest: c is as deep as they leave it, and nothing else of it changes. */
  lemma {:induction false} LevelsCount(x: Lock, c: nat, sched: seq<(nat, Action)>)
    requires Inv(x) && Inside(x, c) && Named(x, sched) && StaysIn(x.core[c].depth, c, sched)
    ensures var y, d := Steps(x, sched), Level(x.core[c].depth, c, sched);
      && Inv(y) && d >= 1 && y.word == c + 1 && y.core[c] == x.core[c].(depth := d, dead := y.core[c].dead)
    decreases sched
  {
    assert CoreOk(x, c);
    if sched != [] {
      var y := Do(x, sched[0].0, sched[0].1);
      StepInv(x, sched[0].0, sched[0].1);
      assert CoreOk(y, c);
      LevelsCount(y, c, sched[1..]);
    }
  }

  // ----- Giving the lock up

  /** The call that gives the lock up this way. */
  function Call(e: Exit): Action
    requires !e.Dying?
  {
    match e case Leaving => Leave case Abandoning => Abandon case Suspending => Suspend
  }

  /** What an exit makes of a processor that was inside: it is out, and a leave restores the saved
      interrupt mask, while a suspend puts the depth aside. */
  function Released(k: Core, e: Exit): Core
    requires !e.Dying?
  {
    match e
    case Leaving => k.(depth := 0, masked := k.primask)
    case Abandoning => k.(depth := 0)
    case Suspending => k.(depth := 0, detached := [k.depth] + k.detached)
  }

  /** k is on the way there. */
  predicate Releasing(k: Core, was: Core, e: Exit)
    requires !e.Dying?
  {
    && (k.pc == Drop(e) || k.pc == Clear(e) || k.pc == Dropped(e))
    && k == Released(was, e).(pc := k.pc, masked := was.masked, dead := k.dead)
  }

  /** c goes on with its exit, or is killed from elsewhere; the others do what they like. */
  predicate OnlyDrops(x: Lock, c: nat, sched: seq<(nat, Action)>) {
    forall i :: 0 <= i < |sched| ==> sched[i].0 < |x.core| && (sched[i].0 == c ==> sched[i].1 in [ClaimDrop, ClearWord, ReleaseDrop, Kill])
  }

  /** The exit e of a processor that was 'was' is over, the word given up, or under way, the word
      given up exactly by the clear. */
  ghost predicate Exits(y: Lock, c: nat, was: Core, e: Exit)
    requires !e.Dying? && c < |y.core|
  {
    var k := y.core[c];
    if k.pc.Out? then k == Released(was, e).(dead := k.dead) && y.word != c + 1
    else Releasing(k, was, e) && (y.word == c + 1 <==> !k.pc.Dropped?)
  }

  lemma DropStep(x: Lock, c: nat, was: Core, e: Exit, d: nat, a: Action)
    requires Inv(x) && c < |x.core| && d < |x.core| && !e.Dying? && was.pc.Out? && Exits(x, c, was, e)
    requires d == c ==> a in [ClaimDrop, ClearWord, ReleaseDrop, Kill]
    ensures Exits(Do(x, d, a), c, was, e)
  {
    StepInv(x, d, a);
    assert CoreOk(x, c) && CoreOk(Do(x, d, a), c);
  }

  lemma {:induction false} DropSteps(x: Lock, c: nat, was: Core, e: Exit, sched: seq<(nat, Action)>)
    requires Inv(x) && c < |x.core| && !e.Dying? && was.pc.Out? && Exits(x, c, was, e) && OnlyDrops(x, c, sched)
    ensures Inv(Steps(x, sched)) && Exits(Steps(x, sched), c, was, e)
    decreases sched
  {
    if sched != [] {
      StepInv(x, sched[0].0, sched[0].1);
      DropStep(x, c, was, e, sched[0].0, sched[0].1);
      DropSteps(Do(x, sched[0].0, sched[0].1), c, was, e, sched[1..]);
    }
  }

  /** A leave at depth 1, an abandon or a suspend at any depth, under every schedule: c is giving the
      word up, or it has given it up and is out at depth 0; then a leave has restored the mask saved
      on acquisition. Nothing else of c changes. */
  lemma ExitRuns(x: Lock, c: nat, e: Exit, sched: seq<(nat, Action)>)
    requires Inv(x) && Inside(x, c) && !e.Dying? && (e.Leaving? ==> x.core[c].depth == 1) && OnlyDrops(x, c, sched)
    ensures Releasing(Do(x, c, Call(e)).core[c], x.core[c], e)
    ensures Exits(Steps(Do(x, c, Call(e)), sched), c, x.core[c], e)
  {
    assert CoreOk(x, c);
    StepInv(x, c, Call(e));
    DropSteps(Do(x, c, Call(e)), c, x.core[c], e, sched);
  }

  lemma CallBegins(x: Lock, c: nat, e: Exit)
    requires Inv(x) && Inside(x, c) && !e.Dying? && (e.Leaving? ==> x.core[c].depth == 1)
    ensures Do(x, c, Call(e)).core[c] == Released(x.core[c], e).(pc := Drop(e), masked := x.core[c].masked)
  {
    assert CoreOk(x, c);
  }

  /** The three steps of an exit begun. */
  lemma DropCompletes(x: Lock, c: nat, e: Exit, s1: seq<(nat, Action)>, s2: seq<(nat, Action)>, s3: seq<(nat, Action)>)
    requires Inv(x) && c < |x.core| && x.core[c].pc == Drop(e)
    requires Others(x, c, s1) && Others(x, c, s2) && Others(x, c, s3) && Steps(x, s1).hw.None?
    ensures var a := Do(Steps(x, s1), c, ClaimDrop); var b := Do(Steps(a, s2), c, ClearWord); var y := Do(Steps(b, s3), c, ReleaseDrop);
      && b.word == 0 && y.core[c] == x.core[c].(pc := if e.Dying? then Stuck else Out,
                                                masked := if e.Leaving? || e.Dying? then x.core[c].primask else x.core[c].masked)
  {
    OthersKeep(x, c, s1);
    var a := Do(Steps(x, s1), c, ClaimDrop);
    StepInv(Steps(x, s1), c, ClaimDrop);
    OthersKeep(a, c, s2);
    var b := Do(Steps(a, s2), c, ClearWord);
    StepInv(Steps(a, s2), c, ClearWord);
    OthersKeep(b, c, s3);
  }

  /** And it does come out: its three steps, with anything from the others in between, once the
      hardware lock is free for the first of them. */
  lemma ExitCompletes(x: Lock, c: nat, e: Exit, s1: seq<(nat, Action)>, s2: seq<(nat, Action)>, s3: seq<(nat, Action)>)
    requires Inv(x) && Inside(x, c) && !e.Dying? && (e.Leaving? ==> x.core[c].depth == 1)
    requires Others(x, c, s1) && Others(x, c, s2) && Others(x, c, s3) && Steps(Do(x, c, Call(e)), s1).hw.None?
    ensures var a := Do(Steps(Do(x, c, Call(e)), s1), c, ClaimDrop);
      var b := Do(Steps(a, s2), c, ClearWord);
      var y := Do(Steps(b, s3), c, ReleaseDrop);
      b.word == 0 && y.core[c] == Released(x.core[c], e)
  {
    StepInv(x, c, Call(e));
    CallBegins(x, c, e);
    DropCompletes(Do(x, c, Call(e)), c, e, s1, s2, s3);
  }

  /** c is on its way to the lock, with this interrupt mask to save and this depth to set. */
  predicate Acquiring(k: Core, saved: bool, deep: nat) {
    k.pc == Spin(saved, deep) || k.pc == Claim(saved, deep) || k.pc == Check(saved, deep) ||
        (k.pc.Unclaim? && k.pc.saved == saved && k.pc.deep == deep)
  }

  /** c only tries to acquire, and is not killed; the others do what they like. */
  predicate OnlyTries(x: Lock, c: nat, sched: seq<(nat, Action)>) {
    forall i :: 0 <= i < |sched| ==> sched[i].0 < |x.core| && (sched[i].0 == c ==> sched[i].1 in [See, ClaimHw, TakeWord, ReleaseHw])
  }

  /** What winning makes of a processor that was acquiring. */
  function Won(k: Core, saved: bool, deep: nat): Core {
    k.(pc := Out, depth := if deep > 1 then deep else 1, primask := saved)
  }

  lemma TryStep(x: Lock, c: nat, saved: bool, deep: nat, d: nat, a: Action)
    requires Inv(x) && c < |x.core| && d < |x.core| && (d == c ==> a in [See, ClaimHw, TakeWord, ReleaseHw])
    ensures Inside(x, c) ==> Do(x, d, a).core[c] == x.core[c]
    ensures Acquiring(x.core[c], saved, deep) && !x.core[c].dead ==>
      var k := Do(x, d, a).core[c]; k == Won(x.core[c], saved, deep) || (Acquiring(k, saved, deep) && k == x.core[c].(pc := k.pc))
  {
  }

  lemma {:induction false} InsideStays(x: Lock, c: nat, sched: seq<(nat, Action)>)
    requires Inv(x) && Inside(x, c) && OnlyTries(x, c, sched)
    ensures Inv(Steps(x, sched)) && Steps(x, sched).core[c] == x.core[c]
    decreases sched
  {
    if sched != [] {
      StepInv(x, sched[0].0, sched[0].1);
      TryStep(x, c, true, 0, sched[0].0, sched[0].1);
      InsideStays(Do(x, sched[0].0, sched[0].1), c, sched[1..]);
    }
  }

  /** However long it spins and whatever the others do: c is still acquiring with the mask and depth
      it came with, or it is inside with exactly these. */
  lemma {:induction false} AcquiringWins(x: Lock, c: nat, saved: bool, deep: nat, sched: seq<(nat, Action)>)
    requires Inv(x) && c < |x.core| && !x.core[c].dead && OnlyTries(x, c, sched)
    requires Acquiring(x.core[c], saved, deep)
    ensures var y := Steps(x, sched);
      && Inv(y)
      && if Inside(y, c) then y.core[c] == Won(x.core[c], saved, deep)
         else Acquiring(y.core[c], saved, deep) && y.core[c] == x.core[c].(pc := y.core[c].pc)
    decreases sched
  {
    if sched != [] {
      var y := Do(x, sched[0].0, sched[0].1);
      StepInv(x, sched[0].0, sched[0].1);
      TryStep(x, c, saved, deep, sched[0].0, sched[0].1);
      if y.core[c].pc.Out? { InsideStays(y, c, sched[1..]); } else { AcquiringWins(y, c, saved, deep, sched[1..]); }
    }
  }

  /** It does win when nobody stands in its way for four steps. */
  lemma WinsWhenFree(x: Lock, c: nat, saved: bool, deep: nat)
    requires Inv(x) && c < |x.core| && x.core[c].pc == Spin(saved, deep) && x.word == 0 && x.hw.None? && !x.core[c].dead
    ensures Inside(Do(Do(Do(Do(x, c, See), c, ClaimHw), c, TakeWord), c, ReleaseHw), c)
  {
    var a := Do(x, c, See);
    var b := Do(a, c, ClaimHw);
    var d := Do(b, c, TakeWord);
    assert d.core[c].pc == Unclaim(saved, deep, true);
  }

  /** A first enter, contended or not: once inside the depth is 1, interrupts are masked, and the mask
      saved is the one sampled at this enter, whatever was saved before. */
  lemma AcquireSamplesMask(x: Lock, c: nat, sched: seq<(nat, Action)>)
    requires Inv(x) && c < |x.core| && x.core[c].pc.Out? && !Inside(x, c) && !x.core[c].dead && OnlyTries(x, c, sched)
    ensures var y := Steps(Do(x, c, Enter), sched);
      && (Inside(y, c) ==> y.core[c] == x.core[c].(depth := 1, primask := x.core[c].masked, masked := true))
      && (!Inside(y, c) ==> Acquiring(y.core[c], x.core[c].masked, 1))
  {
    assert CoreOk(x, c);
    StepInv(x, c, Enter);
    AcquiringWins(Do(x, c, Enter), c, x.core[c].masked, 1, sched);
  }

  /** A whole critical section: acquired however late, with as many leaves as enters inside it in any
      nesting, and left, under every schedule. Once c is out again it is as before, with the interrupt
      mask it came with, which is also what was saved. */
  lemma SectionRestores(x: Lock, c: nat, tries: seq<(nat, Action)>, inner: seq<(nat, Action)>, drops: seq<(nat, Action)>)
    requires Inv(x) && c < |x.core| && x.core[c].pc.Out? && !Inside(x, c) && !x.core[c].dead
    requires OnlyTries(x, c, tries) && Inside(Steps(Do(x, c, Enter), tries), c)
    requires Named(x, inner) && StaysIn(1, c, inner) && Level(1, c, inner) == 1 && OnlyDrops(x, c, drops)
    ensures var in1 := Steps(Steps(Do(x, c, Enter), tries), inner);
      var y := Steps(Do(in1, c, Leave), drops);
      && in1.word == c + 1 && in1.core[c].depth == 1
      && (if y.core[c].pc.Out? then y.core[c] == x.core[c].(primask := x.core[c].masked, dead := y.core[c].dead) && y.word != c + 1
          else Releasing(y.core[c], in1.core[c], Leaving))
  {
    assert CoreOk(x, c);
    AcquireSamplesMask(x, c, tries);
    var in0 := Steps(Do(x, c, Enter), tries);
    StepInv(x, c, Enter);
    AcquiringWins(Do(x, c, Enter), c, x.core[c].masked, 1, tries);
    LevelsCount(in0, c, inner);
    ExitRuns(Steps(in0, inner), c, Leaving, drops);
  }

  // ----- Detached sections

  /** c never resumes more than it suspends in this section (n suspensions were open before), and is
      neither killed nor discarded; otherwise anything may happen, on c and elsewhere. */
  ghost predicate Section(x: Lock, c: nat, n: nat, sched: seq<(nat, Action)>)
    requires c < |x.core|
    decreases sched
  {
    sched == [] ||
    (&& sched[0].0 < |x.core|
     && (sched[0].0 == c ==> sched[0].1 != Kill && sched[0].1 != Discard && (sched[0].1 == Resume ==> |x.core[c].detached| > n))
     && Section(Do(x, sched[0].0, sched[0].1), c, n, sched[1..]))
  }

  lemma {:induction false} SectionBounds(x: Lock, c: nat, n: nat, sched: seq<(nat, Action)>)
    requires c < |x.core| && Section(x, c, n, sched)
    ensures forall i :: 0 <= i < |sched| ==> sched[i].0 < |x.core|
    decreases sched
  {
    if sched != [] {
      SectionBounds(Do(x, sched[0].0, sched[0].1), c, n, sched[1..]);
      assert forall i :: 0 < i < |sched| ==> sched[i] == sched[1..][i - 1];
    }
  }

  /** Interrupts are masked, and every mask c would restore is masked too. */
  predicate KeptMasked(k: Core) {
    && k.masked
    && (k.pc.Spin? || k.pc.Claim? || k.pc.Check? || k.pc.Unclaim? ==> k.pc.saved)
    && (k.depth > 0 || ((k.pc.Drop? || k.pc.Clear? || k.pc.Dropped?) && (k.pc.exit.Leaving? || k.pc.exit.Dying?)) ==> k.primask)
  }

  predicate Unfinished(k: Core, rest: seq<nat>) {
    |rest| <= |k.detached| && k.detached[|k.detached| - |rest|..] == rest
  }

  lemma MaskedStep(x: Lock, c: nat, d: nat, a: Action)
    requires Inv(x) && c < |x.core| && d < |x.core| && !x.core[c].dead && KeptMasked(x.core[c]) && (d == c ==> a != Kill && a != Discard)
    ensures var k := Do(x, d, a).core[c]; !k.dead && KeptMasked(k)
  {
    assert CoreOk(x, c);
  }

  lemma StackStep(x: Lock, c: nat, rest: seq<nat>, d: nat, a: Action)
    requires c < |x.core| && d < |x.core| && Unfinished(x.core[c], rest)
    requires d == c && a == Resume ==> |x.core[c].detached| > |rest|
    ensures Unfinished(Do(x, d, a).core[c], rest)
  {
    var k, k' := x.core[c].detached, Do(x, d, a).core[c].detached;
    if d == c && a == Resume && k' != k {
      assert k'[|k'| - |rest|..] == k[|k| - |rest|..];
    } else if d == c && a == Suspend && k' != k {
      assert k'[|k'| - |rest|..] == k[|k| - |rest|..];
    } else {
      assert k' == k;
    }
  }

  /** Whatever enters, leaves, further suspends and resumes c makes in a detached section: the depths
      put aside before stay, and interrupts stay masked. */
  lemma {:induction false} SectionKeeps(x: Lock, c: nat, rest: seq<nat>, sched: seq<(nat, Action)>)
    requires Inv(x) && c < |x.core| && !x.core[c].dead && Section(x, c, |rest|, sched)
    requires KeptMasked(x.core[c]) && Unfinished(x.core[c], rest)
    ensures forall i :: 0 <= i < |sched| ==> sched[i].0 < |x.core|
    ensures var y := Steps(x, sched); Inv(y) && !y.core[c].dead && KeptMasked(y.core[c]) && Unfinished(y.core[c], rest)
    decreases sched
  {
    SectionBounds(x, c, |rest|, sched);
    if sched != [] {
      StepInv(x, sched[0].0, sched[0].1);
      MaskedStep(x, c, sched[0].0, sched[0].1);
      StackStep(x, c, rest, sched[0].0, sched[0].1);
      SectionKeeps(Do(x, sched[0].0, sched[0].1), c, rest, sched[1..]);
    }
  }

  /** Suspend, a detached section with whatever calls and interference, resume: when c is back
      inside, its depth is the one it suspended with, interrupts were masked all the time, and the
      mask now saved is the one sampled at the resume, that is, masked. */
  lemma ResumeRestoresDepth(x: Lock, c: nat, inner: seq<(nat, Action)>, tries: seq<(nat, Action)>)
    requires Inv(x) && Inside(x, c) && !x.core[c].dead && OnlyTries(x, c, tries)
    requires Section(Do(x, c, Suspend), c, |x.core[c].detached| + 1, inner)
    requires forall i :: 0 <= i < |inner| ==> inner[i].0 < |x.core|
    requires var z := Steps(Do(x, c, Suspend), inner); z.core[c].pc.Out? && z.core[c].depth == 0 && |z.core[c].detached| == |x.core[c].detached| + 1
    ensures var z := Steps(Do(x, c, Suspend), inner);
      var y := Steps(Do(z, c, Resume), tries);
      && z.core[c].masked && z.core[c].detached == [x.core[c].depth] + x.core[c].detached
      && (Inside(y, c) ==> y.core[c] == x.core[c].(primask := true))
      && (!Inside(y, c) ==> Acquiring(y.core[c], true, x.core[c].depth))
  {
    assert CoreOk(x, c);
    var w := Do(x, c, Suspend);
    StepInv(x, c, Suspend);
    var rest := [x.core[c].depth] + x.core[c].detached;
    assert w.core[c].detached[0..] == rest;
    SectionKeeps(w, c, rest, inner);
    var z := Steps(w, inner);
    assert z.core[c].detached[0..] == z.core[c].detached;
    assert CoreOk(z, c);
    StepInv(z, c, Resume);
    assert rest[1..] == x.core[c].detached;
    AcquiringWins(Do(z, c, Resume), c, true, x.core[c].depth, tries);
  }

  // ----- The word is given up at outermost exits only

  /** Step (c, a) in state x begins the exit e: the outermost leave, an abandon, a suspend, or the
      return of a first acquisition whose task was killed meanwhile. */
  predicate Begins(x: Lock, c: nat, a: Action, e: Exit) {
    && c < |x.core| && x.word == c + 1
    && match e
       case Leaving => a == Leave && Inside(x, c) && x.core[c].depth == 1
       case Abandoning => a == Abandon && x.core[c].pc.Out?
       case Suspending => a == Suspend && Inside(x, c)
       case Dying => a == ReleaseHw && x.core[c].pc.Unclaim? && x.core[c].dead
  }

  /** The state after the first i steps. */
  function At(x: Lock, sched: seq<(nat, Action)>, i: nat): (y: Lock)
    requires i <= |sched| && Named(x, sched)
    ensures |y.core| == |x.core|
  {
    Steps(x, sched[..i])
  }

  /** c began exit e at an earlier step and has held the word since. */
  ghost predicate Began(x: Lock, sched: seq<(nat, Action)>, i: nat, c: nat, e: Exit)
    requires i <= |sched| && Named(x, sched)
  {
    exists j: nat :: BeganAt(x, sched, j, i, c, e)
  }

  ghost predicate BeganAt(x: Lock, sched: seq<(nat, Action)>, j: nat, i: nat, c: nat, e: Exit)
    requires i <= |sched| && Named(x, sched)
  {
    && j < i && sched[j].0 == c && Begins(At(x, sched, j), c, sched[j].1, e)
    && forall k :: j < k <= i ==> At(x, sched, k).word == c + 1
  }

  lemma {:induction false} StepsSnoc(x: Lock, sched: seq<(nat, Action)>, c: nat, a: Action)
    requires c < |x.core| && forall i :: 0 <= i < |sched| ==> sched[i].0 < |x.core|
    ensures Steps(x, sched + [(c, a)]) == Do(Steps(x, sched), c, a)
    decreases sched
  {
    if sched == [] {
      assert sched + [(c, a)] == [(c, a)];
      assert Steps(x, [(c, a)]) == Steps(Do(x, c, a), []);
    } else {
      assert (sched + [(c, a)])[1..] == sched[1..] + [(c, a)];
      StepsSnoc(Do(x, sched[0].0, sched[0].1), sched[1..], c, a);
    }
  }

  lemma PrefixStep(x: Lock, sched: seq<(nat, Action)>, i: nat)
    requires i < |sched| && Named(x, sched)
    ensures At(x, sched, i + 1) == Do(At(x, sched, i), sched[i].0, sched[i].1)
  {
    assert sched[..i + 1] == sched[..i] + [(sched[i].0, sched[i].1)];
    StepsSnoc(x, sched[..i], sched[i].0, sched[i].1);
  }

  /** One step: who is on the way out was so before, or begins the exit now; and the word leaves c
      only at c's clear. */
  lemma ExitStep(x: Lock, c: nat, d: nat, a: Action)
    requires Inv(x) && c < |x.core| && d < |x.core|
    ensures var k := Do(x, d, a).core[c];
      k.pc.Drop? || k.pc.Clear? ==>
        ((x.core[c].pc.Drop? || x.core[c].pc.Clear?) && x.core[c].pc.exit == k.pc.exit) || (d == c && Begins(x, c, a, k.pc.exit))
    ensures x.word == c + 1 != Do(x, d, a).word ==> d == c && a == ClearWord && x.core[c].pc.Clear? && Do(x, d, a).word == 0
  {
    assert CoreOk(x, c) && CoreOk(x, d);
  }

  lemma AtInv(x: Lock, sched: seq<(nat, Action)>, i: nat)
    requires Start(x) && Named(x, sched) && i <= |sched|
    ensures Inv(At(x, sched, i))
  {
    assert forall e :: 0 <= e < |x.core| ==> CoreOk(x, e);
    StepsInv(x, sched[..i]);
  }

  /** A processor on its way out began that exit, and has held the word ever since. */
  lemma {:induction false} ExitBegan(x: Lock, sched: seq<(nat, Action)>, i: nat, c: nat)
    requires Start(x) && Named(x, sched) && i <= |sched| && c < |x.core|
    ensures var k := At(x, sched, i).core[c]; k.pc.Drop? || k.pc.Clear? ==> Began(x, sched, i, c, k.pc.exit)
  {
    if i > 0 {
      ExitBegan(x, sched, i - 1, c);
      PrefixStep(x, sched, i - 1);
      AtInv(x, sched, i - 1);
      AtInv(x, sched, i);
      ExitStep(At(x, sched, i - 1), c, sched[i - 1].0, sched[i - 1].1);
      assert CoreOk(At(x, sched, i), c);
      var k := At(x, sched, i).core[c];
      if k.pc.Drop? || k.pc.Clear? { BeganGrows(x, sched, i - 1, c, k.pc.exit); }
    } else {
      assert sched[..0] == [];
    }
  }

  lemma BeganGrows(x: Lock, sched: seq<(nat, Action)>, i: nat, c: nat, e: Exit)
    requires Named(x, sched) && i < |sched| && At(x, sched, i + 1).word == c + 1
    requires Began(x, sched, i, c, e) || (sched[i].0 == c && Begins(At(x, sched, i), c, sched[i].1, e))
    ensures Began(x, sched, i + 1, c, e)
  {
    if Began(x, sched, i, c, e) {
      var j: nat :| BeganAt(x, sched, j, i, c, e);
      assert BeganAt(x, sched, j, i + 1, c, e);
    } else {
      assert BeganAt(x, sched, i, i + 1, c, e);
    }
  }

  /** In every run the lock word leaves c only at c's own clear, and that belongs to an outermost
      leave, an abandon, a suspend or a dying acquisition since which c held the word: an inner
      leave never releases it, and nobody else does. */
  lemma OnlyOutermostReleases(x: Lock, sched: seq<(nat, Action)>, i: nat, c: nat)
    requires Start(x) && Named(x, sched) && i < |sched| && c < |x.core|
    requires At(x, sched, i).word == c + 1 != At(x, sched, i + 1).word
    ensures sched[i] == (c, ClearWord) && At(x, sched, i + 1).word == 0
    ensures At(x, sched, i).core[c].pc.Clear? && Began(x, sched, i, c, At(x, sched, i).core[c].pc.exit)
  {
    PrefixStep(x, sched, i);
    ExitBegan(x, sched, i, c);
    AtInv(x, sched, i);
    ExitStep(At(x, sched, i), c, sched[i].0, sched[i].1);
  }

  /** c is in the spinning part of a first acquisition for a task that has been killed. */
  predicate Doomed(k: Core) {
    k.dead && (k.pc.Spin? || k.pc.Claim? || k.pc.Check? || k.pc.Unclaim? || k.pc == Drop(Dying) || k.pc == Clear(Dying) ||
        k.pc == Dropped(Dying) || k.pc.Stuck?)
  }

  /** A task killed while spinning never enters: whatever happens, it stays doomed until the
      dispatcher discards its context, and it is never inside. */
  lemma {:induction false} KilledNeverEnters(x: Lock, c: nat, sched: seq<(nat, Action)>)
    requires Inv(x) && c < |x.core| && Doomed(x.core[c])
    requires forall i :: 0 <= i < |sched| ==> sched[i].0 < |x.core| && sched[i] != (c, Discard)
    ensures Doomed(Steps(x, sched).core[c]) && !Inside(Steps(x, sched), c)
    decreases sched
  {
    if sched != [] {
      var y := Do(x, sched[0].0, sched[0].1);
      StepInv(x, sched[0].0, sched[0].1);
      assert Doomed(y.core[c]);
      KilledNeverEnters(y, c, sched[1..]);
    }
  }

  /** A kill reaches a task however far its acquisition is: whatever happens next, it is never inside. */
  lemma {:induction false} KilledWhileAcquiring(x: Lock, c: nat, saved: bool, deep: nat, sched: seq<(nat, Action)>)
    requires Inv(x) && c < |x.core| && Acquiring(x.core[c], saved, deep)
    requires forall i :: 0 <= i < |sched| ==> sched[i].0 < |x.core| && sched[i] != (c, Discard)
    ensures Doomed(Steps(Do(x, c, Kill), sched).core[c]) && !Inside(Steps(Do(x, c, Kill), sched), c)
  {
    StepInv(x, c, Kill);
    KilledNeverEnters(Do(x, c, Kill), c, sched);
  }

  /** If such an acquisition wins the word it gives it back: whatever the others do between its steps,
      the word is free again, the mask is the one sampled on the way in, and the processor waits for
      its dispatcher. */
  lemma KilledWinnerGivesBack(x: Lock, c: nat, s1: seq<(nat, Action)>, s2: seq<(nat, Action)>, s3: seq<(nat, Action)>)
    requires Inv(x) && c < |x.core| && x.core[c].dead && x.core[c].pc.Unclaim? && x.core[c].pc.won
    requires Others(x, c, s1) && Others(x, c, s2) && Others(x, c, s3) && Steps(Do(x, c, ReleaseHw), s1).hw.None?
    ensures var k := x.core[c];
      var a := Do(Steps(Do(x, c, ReleaseHw), s1), c, ClaimDrop);
      var b := Do(Steps(a, s2), c, ClearWord);
      var y := Do(Steps(b, s3), c, ReleaseDrop);
      b.word == 0 && y.core[c] == k.(pc := Stuck, primask := k.pc.saved, masked := k.pc.saved)
  {
    StepInv(x, c, ReleaseHw);
    DyingBegins(x, c);
    DropCompletes(Do(x, c, ReleaseHw), c, Dying, s1, s2, s3);
  }

  lemma DyingBegins(x: Lock, c: nat)
    requires c < |x.core| && x.core[c].dead && x.core[c].pc.Unclaim? && x.core[c].pc.won
    ensures Do(x, c, ReleaseHw).core[c] == x.core[c].(pc := Drop(Dying), primask := x.core[c].pc.saved)
  {
  }
}
