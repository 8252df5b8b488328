/** The hero-section typewriter (main.js:187-227): a closure over
    `(currentRoleIndex, currentCharIndex, isDeleting)` that, on every timer tick,
    writes a prefix of the current role into the page and schedules itself again.
    One tick is `Step` on values and `Typewriter.Tick` on the object; the tick
    returns the delay it would pass to `setTimeout`. */
module Typewriter {
  import opened JsStrings

  const Roles: seq<string> :=
    ["Full Stack Developer", "Frontend Developer", "Backend Developer", "UI/UX Designer"]

  const TypeSpeed: nat := 100
  const DeleteSpeed: nat := 50
  const PauseTime: nat := 2000
  /** The pause before typing the next role (a literal in main.js:208). */
  const NextRolePause: nat := 500
  /** The delay before the first tick (main.js:226). */
  const StartDelay: nat := 1000

  datatype TypeState = TypeState(roleIndex: int, charIndex: int, deleting: bool)

  /** The result of one tick: the next state, the text written into the page
      and the delay before the next tick. */
  datatype TickResult = TickResult(next: TypeState, shown: string, delay: nat)

  const Initial := TypeState(0, 0, false)

  predicate ValidRole(s: TypeState) {
    0 <= s.roleIndex < |Roles|
  }

  /** The states the animation moves through: while typing, fewer characters
      than the role has are shown; while deleting, at least one. */
  predicate Inv(s: TypeState) {
    && ValidRole(s)
    && (if s.deleting then 1 <= s.charIndex <= |Roles[s.roleIndex]|
        else 0 <= s.charIndex < |Roles[s.roleIndex]|)
  }

  /** What the page shows in state `s`: the first `charIndex` characters of the role. */
  function Shown(s: TypeState): string
    requires Inv(s)
  {
    Roles[s.roleIndex][..s.charIndex]
  }

  /** One call of `typeWriter` (main.js:198-223). */
  function Step(s: TypeState): (r: TickResult)
    requires ValidRole(s)
    ensures ValidRole(r.next)
    ensures Inv(s) ==> Inv(r.next) && r.shown == Shown(r.next)
  {
    var role := Roles[s.roleIndex];
    if s.deleting then
      var shown := Substring(role, 0, s.charIndex - 1);
      var c := s.charIndex - 1;
      if c == 0 then TickResult(TypeState((s.roleIndex + 1) % |Roles|, 0, false), shown, NextRolePause)
      else TickResult(TypeState(s.roleIndex, c, true), shown, DeleteSpeed)
    else
      var shown := Substring(role, 0, s.charIndex + 1);
      var c := s.charIndex + 1;
      if c == |role| then TickResult(TypeState(s.roleIndex, c, true), shown, PauseTime)
      else TickResult(TypeState(s.roleIndex, c, false), shown, TypeSpeed)
  }

  /** Each tick changes the shown text by one character, and its delay names
      the phase change it made: 2000 ms from typing into deleting, 500 ms from
      deleting into typing the next role, 100 ms and 50 ms within a phase. */
  lemma StepTransitions(s: TypeState)
    requires Inv(s)
    ensures var r := Step(s);
      && (r.delay == PauseTime <==> !s.deleting && r.next.deleting)
      && (r.delay == NextRolePause <==> s.deleting && !r.next.deleting)
      && (r.delay == TypeSpeed <==> !s.deleting && !r.next.deleting)
      && (r.delay == DeleteSpeed <==> s.deleting && r.next.deleting)
    ensures var r := Step(s);
      !s.deleting ==>
        && r.next.roleIndex == s.roleIndex && r.next.charIndex == s.charIndex + 1
        && (r.next.deleting <==> r.next.charIndex == |Roles[s.roleIndex]|)
    ensures var r := Step(s);
      s.deleting ==>
        && r.next.charIndex == (if s.charIndex == 1 then 0 else s.charIndex - 1)
        && (r.next.deleting <==> s.charIndex != 1)
        && r.next.roleIndex == (if s.charIndex == 1 then (s.roleIndex + 1) % |Roles| else s.roleIndex)
  {
  }

  /** The state after `n` ticks. */
  function Run(s: TypeState, n: nat): (t: TypeState)
    requires ValidRole(s)
    ensures ValidRole(t)
    ensures Inv(s) ==> Inv(t)
    decreases n
  {
    if n == 0 then s else Run(Step(s).next, n - 1)
  }

  /** The total of the delays chosen by `n` ticks. */
  function Elapsed(s: TypeState, n: nat): nat
    requires ValidRole(s)
    decreases n
  {
    if n == 0 then 0 else Step(s).delay + Elapsed(Step(s).next, n - 1)
  }

  lemma {:induction false} RunAdd(s: TypeState, a: nat, b: nat)
    requires ValidRole(s)
    ensures Run(s, a + b) == Run(Run(s, a), b)
    decreases a
  {
    if a > 0 {
      RunAdd(Step(s).next, a - 1, b);
    }
  }

  lemma {:induction false} ElapsedAdd(s: TypeState, a: nat, b: nat)
    requires ValidRole(s)
    ensures Elapsed(s, a + b) == Elapsed(s, a) + Elapsed(Run(s, a), b)
    decreases a
  {
    if a > 0 {
      ElapsedAdd(Step(s).next, a - 1, b);
    }
  }

  /** Typing from `k` characters reaches the full role after `|role| - k` ticks,
      100 ms apart, and then pauses 2000 ms. */
  lemma {:induction false} TypingPhase(i: int, k: int)
    requires 0 <= i < |Roles| && 0 <= k < |Roles[i]|
    ensures Run(TypeState(i, k, false), |Roles[i]| - k) == TypeState(i, |Roles[i]|, true)
    ensures Elapsed(TypeState(i, k, false), |Roles[i]| - k)
            == TypeSpeed * (|Roles[i]| - k - 1) + PauseTime
    decreases |Roles[i]| - k
  {
    if k + 1 < |Roles[i]| {
      TypingPhase(i, k + 1);
    }
  }

  /** Deleting from `k` characters empties the role after `k` ticks, 50 ms
      apart, then moves to the next role (wrapping) and pauses 500 ms. */
  lemma {:induction false} DeletingPhase(i: int, k: int)
    requires 0 <= i < |Roles| && 1 <= k <= |Roles[i]|
    ensures Run(TypeState(i, k, true), k) == TypeState((i + 1) % |Roles|, 0, false)
    ensures Elapsed(TypeState(i, k, true), k) == DeleteSpeed * (k - 1) + NextRolePause
  {
    if k > 1 {
      DeletingPhase(i, k - 1);
    }
  }

  /** A role is typed and deleted in exactly `2 * |role|` ticks, after which the
      animation starts on the next role (the first after the last). */
  lemma RoleCycle(i: int)
    requires 0 <= i < |Roles|
    ensures Run(TypeState(i, 0, false), 2 * |Roles[i]|) == TypeState((i + 1) % |Roles|, 0, false)
    ensures Elapsed(TypeState(i, 0, false), 2 * |Roles[i]|)
            == (TypeSpeed + DeleteSpeed) * (|Roles[i]| - 1) + PauseTime + NextRolePause
  {
    var n := |Roles[i]|;
    var s := TypeState(i, 0, false);
    TypingPhase(i, 0);
    DeletingPhase(i, n);
    RunAdd(s, n, n);
    ElapsedAdd(s, n, n);
  }

  /** From the start state, `2 * |Roles[0]|` ticks lead to the second role, and
      the last role wraps round to the first. */
  lemma FirstRoleAndWrap()
    ensures Run(Initial, 2 * |Roles[0]|) == TypeState(1, 0, false)
    ensures Run(TypeState(|Roles| - 1, 0, false), 2 * |Roles[|Roles| - 1]|) == Initial
  {
    RoleCycle(0);
    RoleCycle(|Roles| - 1);
  }

  /** Once the `DOMContentLoaded` handler has run, counting the 1000 ms start
      delay, the second role starts being typed after 6350 ms. */
  lemma FirstRoleTiming()
    ensures Run(Initial, 2 * |Roles[0]|) == TypeState(1, 0, false)
    ensures StartDelay + Elapsed(Initial, 2 * |Roles[0]|) == 6350
  {
    RoleCycle(0);
  }

  /** The animation is periodic: after typing and deleting all four roles
      (138 ticks, 19.75 s of delays) it is back in its start state. */
  lemma FullPeriod()
    ensures Run(Initial, 2 * (|Roles[0]| + |Roles[1]| + |Roles[2]| + |Roles[3]|)) == Initial
    ensures Run(Initial, 138) == Initial
    ensures Elapsed(Initial, 138) == 19750
  {
    var n0, n1, n2, n3 := 2 * |Roles[0]|, 2 * |Roles[1]|, 2 * |Roles[2]|, 2 * |Roles[3]|;
    RoleCycle(0);
    RoleCycle(1);
    RoleCycle(2);
    RoleCycle(3);
    RunAdd(Initial, n0, n1);
    RunAdd(Initial, n0 + n1, n2);
    RunAdd(Initial, n0 + n1 + n2, n3);
    ElapsedAdd(Initial, n0, n1);
    ElapsedAdd(Initial, n0 + n1, n2);
    ElapsedAdd(Initial, n0 + n1 + n2, n3);
  }

  /** The closure's state and the text of the `.hero-role` element. */
  class Typewriter {
    var roleIndex: int
    var charIndex: int
    var deleting: bool
    var text: string

    function State(): TypeState
      reads this
    {
      TypeState(roleIndex, charIndex, deleting)
    }

    ghost predicate Valid()
      reads this
    {
      Inv(State())
    }

    /** The closure as created by `setupTypingAnimation`; the element keeps
        whatever text the page gave it until the first tick. */
    constructor (initialText: string)
      ensures State() == Initial && text == initialText
      ensures Valid()
    {
      roleIndex, charIndex, deleting := 0, 0, false;
      text := initialText;
    }

    /** One call of `typeWriter`; returns the delay of the next call. */
    method Tick() returns (delay: nat)
      requires Valid()
      modifies this
      ensures Valid()
      ensures text == Roles[roleIndex][..charIndex]
      ensures State() == Step(old(State())).next
      ensures text == Step(old(State())).shown && delay == Step(old(State())).delay
    {
      var currentRole := Roles[roleIndex];
      if deleting {
        text := Substring(currentRole, 0, charIndex - 1);
        charIndex := charIndex - 1;
        if charIndex == 0 {
          deleting := false;
          roleIndex := (roleIndex + 1) % |Roles|;
          return NextRolePause;
        }
        return DeleteSpeed;
      } else {
        text := Substring(currentRole, 0, charIndex + 1);
        charIndex := charIndex + 1;
        if charIndex == |currentRole| {
          deleting := true;
          return PauseTime;
        }
        return TypeSpeed;
      }
    }
  }
}
