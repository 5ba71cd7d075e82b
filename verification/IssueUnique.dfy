/**
 When concurrent calls of `Issue` return different identifiers.  The loop alone does not see to it: a
 run keeps them apart if it obeys three rules, and each rule is broken by some run of the loop.
 */
module ConcurrentUniqueness {
  import opened Options
  import opened Runs
  import opened IssueIds
  import opened ConcurrentIssue

  /** What a step of a run must respect for identifiers to stay unique. */
  datatype Rule =
    | Rising     // a successful compare-and-swap raises the stored time
    | Current    // the counter is incremented for the time that is stored
    | Settled    // and not between a successful compare-and-swap and its reset

  predicate Resetting(s: State) { exists j :: 0 <= j < |s.calls| && s.calls[j].pc.Reset? }

  predicate Obeys(s: State, a: Action, rule: Rule) {
    a.Step? && a.call < |s.calls| ==>
      var c := s.calls[a.call];
      match rule
      case Rising => c.pc.Swap? && c.pc.seen == s.last ==> s.last < c.time
      case Current => c.pc.Bump? ==> c.time == s.last
      case Settled => c.pc.Bump? ==> !Resetting(s)
  }

  const ALL := {Rising, Current, Settled}

  predicate ObeysAll(s: State, a: Action, rules: set<Rule>) { forall rule :: rule in rules ==> Obeys(s, a, rule) }

  /** The steps that obey these rules. */
  function Under(rules: set<Rule>): (State, Action) -> Option<State> {
    (s: State, a: Action) => if ObeysAll(s, a, rules) then Next(s, a) else None
  }

  /** The finished calls of a tick. */
  function Of(s: State, time: int): set<nat> {
    set i: nat | i < |s.calls| && s.calls[i].pc.Finished? && s.calls[i].time == time
  }

  ghost predicate Unique(s: State) {
    forall i: nat, j: nat :: i < j < |s.calls| && s.calls[i].pc.Finished? && s.calls[j].pc.Finished? ==>
      s.calls[i].time != s.calls[j].time || s.calls[i].pc != s.calls[j].pc
  }

  ghost predicate Sparse(s: State) { forall time :: |Of(s, time)| <= SEQUENCES }

  // No more than 2^14 identifiers of a tick can differ.

  lemma {:induction false} InjectiveImage(xs: set<nat>, f: nat -> nat)
    requires forall i, j :: i in xs && j in xs && i != j ==> f(i) != f(j)
    ensures |set i | i in xs :: f(i)| == |xs|
  {
    var image := set i | i in xs :: f(i);
    if xs != {} {
      var i :| i in xs;
      InjectiveImage(xs - {i}, f);
      assert image == (set j | j in xs - {i} :: f(j)) + {f(i)};
    }
  }

  lemma FewValues(xs: set<nat>, f: nat -> nat, n: nat)
    requires forall i, j :: i in xs && j in xs && i != j ==> f(i) != f(j)
    requires forall i :: i in xs ==> f(i) < n
    ensures |xs| <= n
  {
    InjectiveImage(xs, f);
    Pigeonhole(set i | i in xs :: f(i), n);
  }

  lemma UniqueIsSparse(s: State)
    requires Unique(s)
    ensures Sparse(s)
  {
    forall time ensures |Of(s, time)| <= SEQUENCES {
      FewValues(Of(s, time), (i: nat) => if i < |s.calls| then Number(s.calls[i]) else 0, SEQUENCES);
    }
  }

  // Runs that obey the rules.

  /** The call has its identifier, or will have it after its reset. */
  predicate Claims(c: Call, time: int) { (c.pc.Reset? || c.pc.Finished?) && c.time == time }

  function Number(c: Call): Sequence { if c.pc.Finished? then c.pc.sequence else 0 }

  ghost predicate ClaimsDiffer(s: State) {
    forall i: nat, j: nat :: i < j < |s.calls| && Claims(s.calls[i], s.calls[i].time) ==>
      Claims(s.calls[j], s.calls[i].time) ==> Number(s.calls[i]) != Number(s.calls[j])
  }

  /** The identifiers of the stored time are numbered up to the counter, from zero (one at time zero). */
  ghost predicate Counted(s: State) {
    && 0 <= s.counter && |Of(s, s.last)| == s.counter + (if s.last == 0 then 0 else 1)
    && forall i: nat :: i < |s.calls| && Claims(s.calls[i], s.last) ==>
         && Number(s.calls[i]) <= s.counter
         && (s.last == 0 && s.counter < SEQUENCES ==> Number(s.calls[i]) > 0)
  }

  /** While a reset is due, the winner of the stored time has its only identifier. */
  ghost predicate Won(s: State) {
    && s.last > 0
    && (exists i: nat :: i < |s.calls| && Claims(s.calls[i], s.last))
    && forall i: nat :: i < |s.calls| && Claims(s.calls[i], s.last) ==> Number(s.calls[i]) == 0
  }

  ghost predicate Orderly(s: State) {
    && 0 <= s.last
    && (forall i: nat :: i < |s.calls| && Claims(s.calls[i], s.calls[i].time) ==> s.calls[i].time <= s.last)
    && ClaimsDiffer(s)
    && (if Resetting(s) then Won(s) else Counted(s))
  }

  lemma FinishedStay(s: State, a: Action)
    requires Next(s, a).Some? && Sparse(Next(s, a).value)
    ensures Sparse(s)
  {
    var t := Next(s, a).value;
    forall time ensures |Of(s, time)| <= SEQUENCES {
      assert Of(s, time) <= Of(t, time);
      Smaller(Of(s, time), Of(t, time));
    }
  }

  lemma Smaller(a: set<nat>, b: set<nat>)
    requires a <= b
    ensures |a| <= |b|
  {
    assert b == a + (b - a);
  }

  /** Calls that claim nothing, before and after, do not matter. */
  lemma SameClaims(s: State, t: State)
    requires Orderly(s) && t.last == s.last && t.counter == s.counter && |s.calls| <= |t.calls|
    requires forall i: nat :: i < |s.calls| && Claims(s.calls[i], s.calls[i].time) ==> t.calls[i] == s.calls[i]
    requires forall i: nat :: i < |t.calls| && Claims(t.calls[i], t.calls[i].time) ==>
                                i < |s.calls| && t.calls[i] == s.calls[i]
    ensures Orderly(t)
  {
    assert Of(t, t.last) == Of(s, s.last);
    assert Resetting(t) <==> Resetting(s);
    if Resetting(s) {
      var i: nat :| i < |s.calls| && Claims(s.calls[i], s.last);
      assert t.calls[i] == s.calls[i];
    }
  }

  lemma UnclaimedKeepsOrder(s: State, a: Action)
    requires Orderly(s) && Next(s, a).Some?
    requires a.Step? ==> var pc := s.calls[a.call].pc;
                         !pc.Bump? && !pc.Reset? && !(pc.Swap? && pc.seen == s.last)
    ensures Orderly(Next(s, a).value)
  {
    var t := Next(s, a).value;
    if a.Step? {
      assert Effect(s, a.call) == s;
    }
    SameClaims(s, t);
  }

  lemma WinKeepsOrder(s: State, i: nat, now: int)
    requires Orderly(s) && i < |s.calls| && s.calls[i].pc == Swap(s.last) && s.last < s.calls[i].time
    ensures Orderly(Next(s, Step(i, now)).value)
  {
    var t := Next(s, Step(i, now)).value;
    assert t.calls == s.calls[i := s.calls[i].(pc := Reset)] && t.last == s.calls[i].time;
    assert Claims(t.calls[i], t.last) && Resetting(t);
    assert forall j: nat :: j < |t.calls| && Claims(t.calls[j], t.last) ==> j == i;
  }

  lemma ResetKeepsOrder(s: State, i: nat, now: int)
    requires Orderly(s) && i < |s.calls| && s.calls[i].pc.Reset?
    ensures Orderly(Next(s, Step(i, now)).value)
  {
    var t := Next(s, Step(i, now)).value;
    assert Resetting(s);
    assert t.calls == s.calls[i := s.calls[i].(pc := Finished(0))] && t.counter == 0 && t.last == s.last;
    var w: nat :| w < |s.calls| && Claims(s.calls[w], s.last);
    assert Claims(t.calls[w], t.last);
    OnlyWinner(s, i, t, w);
  }

  lemma OnlyWinner(s: State, i: nat, t: State, w: nat)
    requires Orderly(s) && Resetting(s) && i < |s.calls| && s.calls[i].pc.Reset?
    requires t.calls == s.calls[i := s.calls[i].(pc := Finished(0))] && t.last == s.last
    requires w < |s.calls| && Claims(s.calls[w], s.last)
    ensures !Resetting(t) ==> Of(t, t.last) == {w}
  {
    forall j: nat | j < |s.calls| && Claims(s.calls[j], s.last) ensures j == w {
      assert Number(s.calls[j]) == Number(s.calls[w]) == 0;
    }
    if !Resetting(t) {
      assert t.calls[w].pc.Finished?;
    }
  }

  /** The next number of the stored time is a new one. */
  lemma NextNumber(s: State, i: nat)
    requires Orderly(s) && i < |s.calls| && s.calls[i].pc.Bump? && !Resetting(s)
    requires |Of(s, s.last)| < SEQUENCES
    ensures var q := Low14(Increment(s.counter));
            && q == (if s.counter + 1 == SEQUENCES then 0 else s.counter + 1)
            && (s.last != 0 ==> q == s.counter + 1)
            && forall j: nat :: j < |s.calls| && Claims(s.calls[j], s.last) ==> Number(s.calls[j]) != q
  {
    Low14Small(Increment(s.counter));
  }

  lemma Low14Small(clock: nat)
    requires clock <= SEQUENCES
    ensures Low14(clock) == if clock == SEQUENCES then 0 else clock
  {
  }

  lemma BumpKeepsOrder(s: State, i: nat, now: int)
    requires Orderly(s) && i < |s.calls| && s.calls[i].pc.Bump? && s.calls[i].time == s.last && !Resetting(s)
    requires Sparse(Next(s, Step(i, now)).value)
    ensures Orderly(Next(s, Step(i, now)).value)
  {
    var t := Next(s, Step(i, now)).value;
    var q := Low14(Increment(s.counter));
    BumpFinishes(s, i, now);
    OneMoreOf(s, i, t, q);
    assert |Of(t, t.last)| <= SEQUENCES;
    NextNumber(s, i);
    Numbered(s, i, t, q);
  }

  lemma BumpFinishes(s: State, i: nat, now: int)
    requires i < |s.calls| && s.calls[i].pc.Bump? && s.calls[i].time == s.last
    ensures var t := Next(s, Step(i, now)).value;
            && t.calls == s.calls[i := s.calls[i].(pc := Finished(Low14(Increment(s.counter))))]
            && t.last == s.last && t.counter == Increment(s.counter)
  {
  }

  lemma OneMoreOf(s: State, i: nat, t: State, q: Sequence)
    requires i < |s.calls| && !s.calls[i].pc.Finished?
    requires t.calls == s.calls[i := s.calls[i].(pc := Finished(q))]
    ensures |Of(t, s.calls[i].time)| == |Of(s, s.calls[i].time)| + 1
  {
    assert Of(t, s.calls[i].time) == Of(s, s.calls[i].time) + {i} && i !in Of(s, s.calls[i].time);
  }

  lemma Numbered(s: State, i: nat, t: State, q: Sequence)
    requires Orderly(s) && i < |s.calls| && s.calls[i].pc.Bump? && s.calls[i].time == s.last && !Resetting(s)
    requires t.calls == s.calls[i := s.calls[i].(pc := Finished(q))] && t.last == s.last
    requires t.counter == s.counter + 1 && |Of(t, t.last)| == |Of(s, s.last)| + 1
    requires q <= t.counter && (q == 0 ==> t.counter == SEQUENCES)
    requires forall j: nat :: j < |s.calls| && Claims(s.calls[j], s.last) ==> Number(s.calls[j]) != q
    ensures Orderly(t)
  {
    assert forall j: nat :: j < |t.calls| && j != i ==> t.calls[j] == s.calls[j];
    assert !Resetting(t);
    NumberedDiffer(s, i, t, q);
  }

  lemma NumberedDiffer(s: State, i: nat, t: State, q: Sequence)
    requires ClaimsDiffer(s) && i < |s.calls| && s.calls[i].pc.Bump? && s.calls[i].time == s.last
    requires t.calls == s.calls[i := s.calls[i].(pc := Finished(q))]
    requires forall j: nat :: j < |s.calls| && Claims(s.calls[j], s.last) ==> Number(s.calls[j]) != q
    ensures ClaimsDiffer(t)
  {
    assert forall j: nat :: j < |t.calls| && j != i ==> t.calls[j] == s.calls[j];
    assert Number(t.calls[i]) == q && t.calls[i].time == s.last;
  }

  lemma RuledStepKeepsOrder(s: State, a: Action)
    requires (Sparse(s) ==> Orderly(s)) && Under(ALL)(s, a).Some?
    ensures var t := Under(ALL)(s, a).value; Sparse(t) ==> Orderly(t)
  {
    var t := Under(ALL)(s, a).value;
    if Sparse(t) {
      FinishedStay(s, a);
      assert Obeys(s, a, Rising) && Obeys(s, a, Current) && Obeys(s, a, Settled);
      if a.Begin? {
        UnclaimedKeepsOrder(s, a);
      } else {
        match s.calls[a.call].pc
        case Bump => BumpKeepsOrder(s, a.call, a.now);
        case Reset => ResetKeepsOrder(s, a.call, a.now);
        case Swap(seen) => if seen == s.last { WinKeepsOrder(s, a.call, a.now); } else { UnclaimedKeepsOrder(s, a); }
        case _ => UnclaimedKeepsOrder(s, a);
      }
    }
  }

  lemma OrderlyIsUnique(s: State)
    requires Orderly(s)
    ensures Unique(s)
  {
    forall i: nat, j: nat | i < j < |s.calls| && s.calls[i].pc.Finished? && s.calls[j].pc.Finished?
      ensures s.calls[i].time != s.calls[j].time || s.calls[i].pc != s.calls[j].pc
    {
      if s.calls[i].time == s.calls[j].time {
        assert Claims(s.calls[i], s.calls[i].time) && Claims(s.calls[j], s.calls[i].time);
      }
    }
  }

  /**
   Concurrent uniqueness.  In every interleaving whose steps obey the three rules, the finished calls
   have pairwise distinct (time, clock sequence) pairs exactly when no tick has more than 2^14 of them.
   */
  lemma UniqueExactly(acts: seq<Action>)
    requires Exec(Under(ALL), INITIAL, acts).Some?
    ensures var s := Exec(Under(ALL), INITIAL, acts).value;
            Unique(s) <==> Sparse(s)
  {
    var inv := (s: State) => Sparse(s) ==> Orderly(s);
    forall s, a | inv(s) && Under(ALL)(s, a).Some? ensures inv(Under(ALL)(s, a).value) {
      RuledStepKeepsOrder(s, a);
    }
    assert Orderly(INITIAL);
    Invariant(Under(ALL), inv, INITIAL, acts);
    var s := Exec(Under(ALL), INITIAL, acts).value;
    if Unique(s) {
      UniqueIsSparse(s);
    } else if Sparse(s) {
      OrderlyIsUnique(s);
    }
  }

  /** Calls that do not overlap, on a clock that does not step back, obey the rules. */
  lemma AloneObeys(s: State, i: nat, now: int)
    requires i < |s.calls| && s.calls[i].pc.ReadClock? && !Resetting(s) && s.last <= now
    ensures Exec(Under(ALL), s, Alone(s, i, now)).Some?
    ensures var t := Exec(Under(ALL), s, Alone(s, i, now)).value; !Resetting(t) && t.last == now
  {
    var a := Step(i, now);
    var s1 := Next(s, a).value;
    var s2 := Next(s1, a).value;
    var s3 := Next(s2, a).value;
    assert s1.calls == s.calls[i := s.calls[i].(time := now, pc := Load)];
    if s.last == now {
      assert !Resetting(s2);
      assert [a, a, a][1..] == [a, a] && [a, a][1..] == [a] && [a][1..] == [];
      assert Exec(Under(ALL), s3, []) == Some(s3);
      assert Exec(Under(ALL), s2, [a]) == Some(s3);
      assert Exec(Under(ALL), s1, [a, a]) == Some(s3);
    } else {
      var s4 := Next(s3, a).value;
      assert [a, a, a, a][1..] == [a, a, a] && [a, a, a][1..] == [a, a] && [a, a][1..] == [a] && [a][1..] == [];
      assert Exec(Under(ALL), s4, []) == Some(s4);
      assert Exec(Under(ALL), s3, [a]) == Some(s4);
      assert Exec(Under(ALL), s2, [a, a]) == Some(s4);
      assert Exec(Under(ALL), s1, [a, a, a]) == Some(s4);
    }
  }

  // ----- Each rule is needed

  /** Some run that breaks only this rule repeats an identifier. */
  ghost predicate Needed(rule: Rule) {
    exists s :: Reaches(Under(ALL - {rule}), INITIAL, s) && !Unique(s)
  }

  /** A further call, with its first reading taken. */
  lemma Starts(rules: set<Rule>, s: State, time: int) returns (t: State)
    requires Reaches(Under(rules), INITIAL, s)
    ensures Reaches(Under(rules), INITIAL, t) && t == s.(calls := s.calls + [Call(time, Load, 0, [])])
  {
    Extend(Under(rules), INITIAL, s, Begin);
    t := Next(s, Begin).value;
    Extend(Under(rules), INITIAL, t, Step(|s.calls|, time));
    t := Next(t, Step(|s.calls|, time)).value;
    assert t.calls == s.calls + [Call(time, Load, 0, [])];
  }

  /** Call `i` loads the stored time, which is not its own, and swaps its own in. */
  lemma Wins(rules: set<Rule>, s: State, i: nat) returns (t: State)
    requires Reaches(Under(rules), INITIAL, s) && i < |s.calls| && s.calls[i].pc.Load?
    requires s.last != s.calls[i].time && (Rising in rules ==> s.last < s.calls[i].time)
    ensures Reaches(Under(rules), INITIAL, t)
    ensures t.last == s.calls[i].time && t.counter == s.counter && |t.calls| == |s.calls|
    ensures t.calls[i].pc.Reset? && t.calls[i].time == s.calls[i].time
    ensures forall j :: 0 <= j < |s.calls| && j != i ==> t.calls[j] == s.calls[j]
  {
    Extend(Under(rules), INITIAL, s, Step(i, 0));
    t := Next(s, Step(i, 0)).value;
    assert t.calls[i].pc == Swap(t.last) && t.calls[i].time == s.calls[i].time;
    Extend(Under(rules), INITIAL, t, Step(i, 0));
    t := Next(t, Step(i, 0)).value;
  }

  lemma Resets(rules: set<Rule>, s: State, i: nat) returns (t: State)
    requires Reaches(Under(rules), INITIAL, s) && i < |s.calls| && s.calls[i].pc.Reset?
    ensures Reaches(Under(rules), INITIAL, t)
    ensures t.last == s.last && t.counter == 0 && t.calls == s.calls[i := s.calls[i].(pc := Finished(0))]
  {
    Extend(Under(rules), INITIAL, s, Step(i, 0));
    t := Next(s, Step(i, 0)).value;
  }

  lemma FindsItsTime(rules: set<Rule>, s: State, i: nat) returns (t: State)
    requires Reaches(Under(rules), INITIAL, s) && i < |s.calls| && s.calls[i].pc.Load? && s.calls[i].time == s.last
    ensures Reaches(Under(rules), INITIAL, t)
    ensures t.last == s.last && t.counter == s.counter && |t.calls| == |s.calls|
    ensures t.calls[i].pc.Bump? && t.calls[i].time == s.calls[i].time
    ensures forall j :: 0 <= j < |s.calls| && j != i ==> t.calls[j] == s.calls[j]
  {
    Extend(Under(rules), INITIAL, s, Step(i, 0));
    t := Next(s, Step(i, 0)).value;
  }

  lemma Bumps(rules: set<Rule>, s: State, i: nat) returns (t: State)
    requires Reaches(Under(rules), INITIAL, s) && i < |s.calls| && s.calls[i].pc.Bump?
    requires (Current in rules ==> s.calls[i].time == s.last) && (Settled in rules ==> !Resetting(s))
    ensures Reaches(Under(rules), INITIAL, t)
    ensures t.last == s.last && t.counter == Increment(s.counter)
    ensures t.calls == s.calls[i := s.calls[i].(pc := Finished(Low14(Increment(s.counter))))]
  {
    Extend(Under(rules), INITIAL, s, Step(i, 0));
    t := Next(s, Step(i, 0)).value;
  }

  lemma Repeats(rule: Rule, s: State, i: nat, j: nat)
    requires Reaches(Under(ALL - {rule}), INITIAL, s) && i < j < |s.calls|
    requires s.calls[i].pc.Finished? && s.calls[i].time == s.calls[j].time && s.calls[i].pc == s.calls[j].pc
    ensures Needed(rule)
  {
    assert !Unique(s);
  }

  /**
   Between a winner's swap and its reset another call uses the old counter, and a third call repeats
   that number after the reset.
   */
  lemma SettledNeeded()
    ensures Needed(Settled)
  {
    var rules := ALL - {Settled};
    Here(Under(rules), INITIAL);
    var s := Starts(rules, INITIAL, 5);
    s := Starts(rules, s, 5);
    s := Starts(rules, s, 5);
    s := Wins(rules, s, 0);
    s := FindsItsTime(rules, s, 1);
    s := Bumps(rules, s, 1);
    s := Resets(rules, s, 0);
    s := FindsItsTime(rules, s, 2);
    s := Bumps(rules, s, 2);
    Repeats(Settled, s, 1, 2);
  }

  /**
   A call with an earlier reading loads the stored time after a later one has won, swaps it back
   unhindered, and the next call wins the later tick once more.
   */
  lemma RisingNeeded()
    ensures Needed(Rising)
  {
    var rules := ALL - {Rising};
    Here(Under(rules), INITIAL);
    var s := Starts(rules, INITIAL, 5);
    s := Starts(rules, s, 6);
    s := Starts(rules, s, 6);
    s := Wins(rules, s, 1);
    s := Resets(rules, s, 1);
    s := Wins(rules, s, 0);
    s := Wins(rules, s, 2);
    s := Resets(rules, s, 2);
    Repeats(Rising, s, 1, 2);
  }

  /** A call about to increment the counter for its tick does so after a later tick has reset it. */
  lemma CurrentNeeded()
    ensures Needed(Current)
  {
    var rules := ALL - {Current};
    var s := TwoAboutToBump(rules);
    s := Bumps(rules, s, 1);
    s := Wins(rules, s, 3);
    s := Resets(rules, s, 3);
    s := Bumps(rules, s, 2);
    Repeats(Current, s, 1, 2);
  }

  lemma TwoAboutToBump(rules: set<Rule>) returns (s: State)
    ensures Reaches(Under(rules), INITIAL, s) && s.last == 5 && s.counter == 0 && |s.calls| == 4
    ensures s.calls[0].pc.Finished? && s.calls[3].pc.Load? && s.calls[3].time == 6
    ensures forall i | 1 <= i <= 2 :: s.calls[i].pc.Bump? && s.calls[i].time == 5
  {
    Here(Under(rules), INITIAL);
    s := Starts(rules, INITIAL, 5);
    s := Starts(rules, s, 5);
    s := Starts(rules, s, 5);
    s := Starts(rules, s, 6);
    s := Wins(rules, s, 0);
    s := Resets(rules, s, 0);
    s := FindsItsTime(rules, s, 1);
    s := FindsItsTime(rules, s, 2);
  }
}
