/** The typewriter role cycler of src/components/home/Hero.tsx.  Each timer
    callback advances a three-phase machine over the index of the current
    role and the text shown so far: type the role one character at a time,
    pause, delete it one character at a time, move on to the next role.  The
    step is specified by the pure function `Step`; the component's state is
    the class `TypewriterRole`, whose `Tick` performs one timer callback. */
module Typewriter {
  datatype Phase = Typing | Pause | Deleting

  datatype TypewriterState = TypewriterState(roleIdx: nat, displayed: string, phase: Phase)

  /** The roles cycled through, in order. */
  const Roles: seq<string> := ["AI Engineer", "Backend Developer", "Full Stack Engineer", "ML Researcher"]

  /** The component's first render: valid, nothing shown, and its first
      step types the first character of the first role. */
  function Initial(): (s: TypewriterState)
    ensures Inv(Roles, s) && s.displayed == ""
    ensures Step(Roles, s) == TypewriterState(0, Roles[0][..1], Typing)
  {
    TypewriterState(0, "", Typing)
  }

  /** The index is in range and the text shown is a prefix of the current role. */
  ghost predicate Inv(roles: seq<string>, s: TypewriterState) {
    s.roleIdx < |roles| && s.displayed <= roles[s.roleIdx]
  }

  /** The state after the pending timer of state `s` fires, for the role list
      `roles` (the component uses `Roles`). */
  function Step(roles: seq<string>, s: TypewriterState): (r: TypewriterState)
    requires Inv(roles, s)
    ensures Inv(roles, r)
    ensures s.phase == Typing && |s.displayed| < |roles[s.roleIdx]| ==>
      r == TypewriterState(s.roleIdx, s.displayed + [roles[s.roleIdx][|s.displayed|]], Typing)
    ensures s.phase == Typing && |s.displayed| >= |roles[s.roleIdx]| ==>
      s.displayed == roles[s.roleIdx] && r == s.(phase := Pause)
    ensures s.phase == Pause ==> r == s.(phase := Deleting)
    ensures s.phase == Deleting && s.displayed != [] ==>
      r.phase == Deleting && r.roleIdx == s.roleIdx && r.displayed + [s.displayed[|s.displayed| - 1]] == s.displayed
    ensures s.phase == Deleting && s.displayed == [] ==>
      r == TypewriterState((s.roleIdx + 1) % |roles|, "", Typing)
  {
    var current := roles[s.roleIdx];
    match s.phase
    case Typing =>
      if |s.displayed| < |current| then
        assert current[..|s.displayed| + 1] == s.displayed + [current[|s.displayed|]];
        s.(displayed := current[..|s.displayed| + 1])
      else s.(phase := Pause)
    case Pause => s.(phase := Deleting)
    case Deleting =>
      if |s.displayed| > 0 then s.(displayed := s.displayed[..|s.displayed| - 1])
      else TypewriterState((s.roleIdx + 1) % |roles|, "", Typing)
  }

  /** The milliseconds state `s` waits before `Step` applies: 60 per typed
      character, 1800 once the role is shown, 400 of pause, 35 per deleted
      character; moving to the next role happens in the effect itself. */
  function Delay(roles: seq<string>, s: TypewriterState): (ms: nat)
    requires Inv(roles, s)
    ensures ms == 0 <==> s.phase == Deleting && s.displayed == []
  {
    match s.phase
    case Typing => if |s.displayed| < |roles[s.roleIdx]| then 60 else 1800
    case Pause => 400
    case Deleting => if |s.displayed| > 0 then 35 else 0
  }

  /** The state after `n` timer callbacks. */
  function Steps(roles: seq<string>, s: TypewriterState, n: nat): (r: TypewriterState)
    requires Inv(roles, s)
    ensures Inv(roles, r)
    decreases n
  {
    if n == 0 then s else Steps(roles, Step(roles, s), n - 1)
  }

  /** The time those `n` callbacks take. */
  function TotalDelay(roles: seq<string>, s: TypewriterState, n: nat): nat
    requires Inv(roles, s)
    decreases n
  {
    if n == 0 then 0 else Delay(roles, s) + TotalDelay(roles, Step(roles, s), n - 1)
  }

  /** Running `m` callbacks and then `n` more is running `m + n`. */
  lemma {:induction false} StepsAdd(roles: seq<string>, s: TypewriterState, m: nat, n: nat)
    requires Inv(roles, s)
    ensures Steps(roles, s, m + n) == Steps(roles, Steps(roles, s, m), n)
    ensures TotalDelay(roles, s, m + n) == TotalDelay(roles, s, m) + TotalDelay(roles, Steps(roles, s, m), n)
    decreases m
  {
    if m > 0 {
      var t := Step(roles, s);
      StepsAdd(roles, t, m - 1, n);
      assert Steps(roles, s, m + n) == Steps(roles, t, (m - 1) + n);
      assert TotalDelay(roles, s, m + n) == Delay(roles, s) + TotalDelay(roles, t, (m - 1) + n);
      assert Steps(roles, s, m) == Steps(roles, t, m - 1);
      assert TotalDelay(roles, s, m) == Delay(roles, s) + TotalDelay(roles, t, m - 1);
    }
  }

  /** Typing `k` more characters of role `i` from its first `j` takes `k`
      callbacks of 60 ms each. */
  lemma {:induction false} TypeUp(roles: seq<string>, i: nat, j: nat, k: nat)
    requires i < |roles| && j + k <= |roles[i]|
    ensures Inv(roles, TypewriterState(i, roles[i][..j], Typing))
    ensures Steps(roles, TypewriterState(i, roles[i][..j], Typing), k) == TypewriterState(i, roles[i][..j + k], Typing)
    ensures TotalDelay(roles, TypewriterState(i, roles[i][..j], Typing), k) == 60 * k
    decreases k
  {
    var s := TypewriterState(i, roles[i][..j], Typing);
    if k > 0 {
      assert roles[i][..j] + [roles[i][j]] == roles[i][..j + 1];
      assert Step(roles, s) == TypewriterState(i, roles[i][..j + 1], Typing);
      TypeUp(roles, i, j + 1, k - 1);
    }
  }

  /** Deleting the first `j` characters of role `i` takes `j` callbacks of
      35 ms each. */
  lemma {:induction false} DeleteDown(roles: seq<string>, i: nat, j: nat)
    requires i < |roles| && j <= |roles[i]|
    ensures Inv(roles, TypewriterState(i, roles[i][..j], Deleting))
    ensures Steps(roles, TypewriterState(i, roles[i][..j], Deleting), j) == TypewriterState(i, "", Deleting)
    ensures TotalDelay(roles, TypewriterState(i, roles[i][..j], Deleting), j) == 35 * j
    decreases j
  {
    var s := TypewriterState(i, roles[i][..j], Deleting);
    if j > 0 {
      assert roles[i][..j][..j - 1] == roles[i][..j - 1];
      assert Step(roles, s) == TypewriterState(i, roles[i][..j - 1], Deleting);
      DeleteDown(roles, i, j - 1);
    }
  }

  /** One full cycle: from role `i` with nothing shown, `2|r| + 3` callbacks
      (for `r` the role's text) type it, pause, delete it and reach role
      `i + 1` (wrapping to the first) with nothing shown, after
      `95|r| + 2200` ms. */
  lemma Cycle(roles: seq<string>, i: nat)
    requires i < |roles|
    ensures Inv(roles, TypewriterState(i, "", Typing))
    ensures Steps(roles, TypewriterState(i, "", Typing), 2 * |roles[i]| + 3)
         == TypewriterState((i + 1) % |roles|, "", Typing)
    ensures TotalDelay(roles, TypewriterState(i, "", Typing), 2 * |roles[i]| + 3) == 95 * |roles[i]| + 2200
  {
    var n := |roles[i]|;
    var s0 := TypewriterState(i, "", Typing);
    var s1 := TypewriterState(i, roles[i], Typing);
    var s3 := TypewriterState(i, roles[i], Deleting);
    var s4 := TypewriterState(i, "", Deleting);
    var s5 := TypewriterState((i + 1) % |roles|, "", Typing);
    TypeAll(roles, i);
    ShowAndPause(roles, i);
    DeleteAll(roles, i);
    NextRole(roles, i);
    Chain(roles, s0, s1, s3, n, 2, 60 * n, 2200);
    Chain(roles, s0, s3, s4, n + 2, n, 60 * n + 2200, 35 * n);
    Chain(roles, s0, s4, s5, n + 2 + n, 1, 95 * n + 2200, 0);
  }

  /** Typing a whole role from nothing. */
  lemma TypeAll(roles: seq<string>, i: nat)
    requires i < |roles|
    ensures Inv(roles, TypewriterState(i, "", Typing))
    ensures Steps(roles, TypewriterState(i, "", Typing), |roles[i]|) == TypewriterState(i, roles[i], Typing)
    ensures TotalDelay(roles, TypewriterState(i, "", Typing), |roles[i]|) == 60 * |roles[i]|
  {
    var r := roles[i];
    assert r[..0] == "" && r[..|r|] == r;
    TypeUp(roles, i, 0, |r|);
  }

  /** Deleting a whole role. */
  lemma DeleteAll(roles: seq<string>, i: nat)
    requires i < |roles|
    ensures Inv(roles, TypewriterState(i, roles[i], Deleting))
    ensures Steps(roles, TypewriterState(i, roles[i], Deleting), |roles[i]|) == TypewriterState(i, "", Deleting)
    ensures TotalDelay(roles, TypewriterState(i, roles[i], Deleting), |roles[i]|) == 35 * |roles[i]|
  {
    var r := roles[i];
    assert r[..|r|] == r;
    DeleteDown(roles, i, |r|);
  }

  /** With nothing left to delete, the next role starts at once. */
  lemma NextRole(roles: seq<string>, i: nat)
    requires i < |roles|
    ensures Inv(roles, TypewriterState(i, "", Deleting))
    ensures Steps(roles, TypewriterState(i, "", Deleting), 1) == TypewriterState((i + 1) % |roles|, "", Typing)
    ensures TotalDelay(roles, TypewriterState(i, "", Deleting), 1) == 0
  {
    var s4 := TypewriterState(i, "", Deleting);
    assert Step(roles, s4) == TypewriterState((i + 1) % |roles|, "", Typing);
  }

  /** One callback more extends a run by one `Step` and its `Delay`. */
  lemma OneMore(roles: seq<string>, s: TypewriterState, k: nat)
    requires Inv(roles, s)
    ensures Steps(roles, s, k + 1) == Step(roles, Steps(roles, s, k))
    ensures TotalDelay(roles, s, k + 1) == TotalDelay(roles, s, k) + Delay(roles, Steps(roles, s, k))
  {
    StepsAdd(roles, s, k, 1);
    var t := Steps(roles, s, k);
    assert Steps(roles, t, 1) == Step(roles, t);
    assert TotalDelay(roles, t, 1) == Delay(roles, t);
  }

  /** Two runs back to back, stated by their end points and times. */
  lemma Chain(roles: seq<string>, a: TypewriterState, b: TypewriterState, c: TypewriterState,
              m: nat, k: nat, dm: nat, dk: nat)
    requires Inv(roles, a) && Inv(roles, b)
    requires Steps(roles, a, m) == b && TotalDelay(roles, a, m) == dm
    requires Steps(roles, b, k) == c && TotalDelay(roles, b, k) == dk
    ensures Steps(roles, a, m + k) == c && TotalDelay(roles, a, m + k) == dm + dk
  {
    StepsAdd(roles, a, m, k);
  }

  /** A fully typed role is held 1800 ms, then paused 400 ms before deletion. */
  lemma ShowAndPause(roles: seq<string>, i: nat)
    requires i < |roles|
    ensures Inv(roles, TypewriterState(i, roles[i], Typing))
    ensures Step(roles, TypewriterState(i, roles[i], Typing)) == TypewriterState(i, roles[i], Pause)
    ensures Delay(roles, TypewriterState(i, roles[i], Typing)) == 1800
    ensures Step(roles, TypewriterState(i, roles[i], Pause)) == TypewriterState(i, roles[i], Deleting)
    ensures Delay(roles, TypewriterState(i, roles[i], Pause)) == 400
    ensures Steps(roles, TypewriterState(i, roles[i], Typing), 2) == TypewriterState(i, roles[i], Deleting)
    ensures TotalDelay(roles, TypewriterState(i, roles[i], Typing), 2) == 2200
  {
    var s1 := TypewriterState(i, roles[i], Typing);
    var s2 := TypewriterState(i, roles[i], Pause);
    var s3 := TypewriterState(i, roles[i], Deleting);
    assert Step(roles, s1) == s2 && Delay(roles, s1) == 1800;
    assert Step(roles, s2) == s3 && Delay(roles, s2) == 400;
    assert Steps(roles, s2, 1) == s3 && TotalDelay(roles, s2, 1) == 400;
  }

  /** After the cycle of the last role the roles begin again from the first. */
  lemma RolesWrap()
    ensures Steps(Roles, TypewriterState(3, "", Typing), 2 * |Roles[3]| + 3) == Initial()
  {
    Cycle(Roles, 3);
  }

  /** The component's three state variables. */
  class TypewriterRole {
    /** The module's `Roles`, which the component reads. */
    const roles: seq<string>
    var roleIdx: nat
    var displayed: string
    var phase: Phase

    function Snapshot(): TypewriterState
      reads this
    {
      TypewriterState(roleIdx, displayed, phase)
    }

    ghost predicate Valid()
      reads this
    {
      Inv(roles, Snapshot())
    }

    /** `useState(0)`, `useState('')`, `useState('typing')`. */
    constructor ()
      ensures roles == Roles
      ensures Snapshot() == Initial() && Valid()
    {
      roles := Roles;
      roleIdx, displayed, phase := 0, "", Typing;
    }

    /** One run of the effect: it returns the delay of the timer it sets and
        applies that timer's update (the last role is followed by the first
        without a timer, so the delay is 0). */
    method Tick() returns (delayMs: nat)
      requires Valid()
      modifies this
      ensures Valid()
      ensures Snapshot() == Step(roles, old(Snapshot()))
      ensures delayMs == Delay(roles, old(Snapshot()))
    {
      var current := roles[roleIdx];
      if phase == Typing {
        if |displayed| < |current| {
          delayMs := 60;
          displayed := current[..|displayed| + 1];
        } else {
          delayMs := 1800;
          phase := Pause;
        }
      } else if phase == Pause {
        delayMs := 400;
        phase := Deleting;
      } else {
        if |displayed| > 0 {
          delayMs := 35;
          displayed := displayed[..|displayed| - 1];
        } else {
          delayMs := 0;
          roleIdx := (roleIdx + 1) % |roles|;
          phase := Typing;
        }
      }
    }

    /** `n` timer callbacks in a row; returns the time they take. */
    method Run(n: nat) returns (elapsedMs: nat)
      requires Valid()
      modifies this
      ensures Valid()
      ensures Snapshot() == Steps(roles, old(Snapshot()), n)
      ensures elapsedMs == TotalDelay(roles, old(Snapshot()), n)
    {
      ghost var start := Snapshot();
      var k := 0;
      elapsedMs := 0;
      while k < n
        invariant 0 <= k <= n && Valid()
        invariant Snapshot() == Steps(roles, start, k)
        invariant elapsedMs == TotalDelay(roles, start, k)
      {
        var d := Tick();
        OneMore(roles, start, k);
        elapsedMs := elapsedMs + d;
        k := k + 1;
      }
    }
  }
}
