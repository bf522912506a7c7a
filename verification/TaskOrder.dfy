/**
 The comparator of control_plane/scheduler/queue.go. Times are nanoseconds; effective priorities
 are kept exactly, scaled by the ten seconds of waiting that are worth one priority level.
 */
module TaskOrder {
  import opened Sharding

  datatype Task = Task(
    reqID: string,
    nodeID: NodeID,
    tenantID: string,
    stateID: string,
    priority: int,
    deadline: int,
    submitTime: int,
    failureDomain: string)

  const SECOND := 1_000_000_000
  const AGING := 10 * SECOND

  /** Base priority minus waiting time over the aging factor, times AGING. */
  function Effective(t: Task, now: int): int {
    t.priority * AGING - (now - t.submitTime)
  }

  /** Conversion to an integer: the fraction is dropped, toward zero. */
  function Level(effective: int): int {
    if effective >= 0 then effective / AGING else -((-effective) / AGING)
  }

  function LevelOf(t: Task, now: int): int {
    Level(Effective(t, now))
  }

  predicate Less(a: Task, b: Task, now: int) {
    var effA, effB := Effective(a, now), Effective(b, now);
    if Level(effA) == Level(effB) then a.deadline < b.deadline else effA < effB
  }

  lemma LevelMonotone(x: int, y: int)
    requires x <= y
    ensures Level(x) <= Level(y)
  {
    if x < 0 <= y {
      assert Level(x) <= 0 <= Level(y);
    }
  }

  /** At one instant the comparator orders by (level, deadline), so it is a strict weak order. */
  lemma LessIsLexicographic(a: Task, b: Task, now: int)
    ensures Less(a, b, now) <==>
            LevelOf(a, now) < LevelOf(b, now) || (LevelOf(a, now) == LevelOf(b, now) && a.deadline < b.deadline)
  {
    if Effective(a, now) <= Effective(b, now) { LevelMonotone(Effective(a, now), Effective(b, now)); }
    else { LevelMonotone(Effective(b, now), Effective(a, now)); }
  }

  lemma LessIsStrictWeak(a: Task, b: Task, c: Task, now: int)
    ensures !Less(a, a, now)
    ensures Less(a, b, now) && Less(b, c, now) ==> Less(a, c, now)
    ensures !Less(a, b, now) && !Less(b, c, now) ==> !Less(a, c, now)
  {
    LessIsLexicographic(a, a, now);
    LessIsLexicographic(a, b, now);
    LessIsLexicographic(b, c, now);
    LessIsLexicographic(a, c, now);
  }

  /** How far a is ahead of b, which no clock changes. */
  function Lead(a: Task, b: Task): int {
    Effective(b, 0) - Effective(a, 0)
  }

  /** Two levels apart, to the nanosecond, no bucket holds both. */
  lemma LeadSeparatesLevels(a: Task, b: Task, now: int)
    requires Lead(a, b) >= 2 * AGING - 1
    ensures LevelOf(a, now) < LevelOf(b, now)
  {
    var x, y := Effective(a, now), Effective(b, now);
    assert y - x == Lead(a, b);
    LevelMonotone(x, y);
  }

  /** a goes before b at every clock reading exactly if it leads by two levels, or leads at all (or
      ties) and also has the earlier deadline. */
  lemma AlwaysLessExactly(a: Task, b: Task)
    ensures (forall now :: Less(a, b, now)) <==>
            Lead(a, b) >= 2 * AGING - 1 || (Lead(a, b) >= 0 && a.deadline < b.deadline)
  {
    var lead := Lead(a, b);
    if lead >= 2 * AGING - 1 {
      forall now ensures Less(a, b, now) { LeadSeparatesLevels(a, b, now); LessIsLexicographic(a, b, now); }
    } else if lead >= 0 && a.deadline < b.deadline {
      forall now ensures Less(a, b, now) { LessIsLexicographic(a, b, now); LevelMonotone(Effective(a, now), Effective(b, now)); }
    } else if lead >= 0 {
      // both in the bucket around zero, where only the deadline counts
      var now := Effective(a, 0) + AGING - 1;
      assert Effective(a, now) == 1 - AGING && Effective(b, now) == 1 - AGING + lead;
      assert !Less(a, b, now);
    } else {
      // a moment at which b is in a strictly better bucket
      var now := Effective(a, 0);
      assert Effective(a, now) == 0 && Effective(b, now) == lead;
      var early := now - AGING;
      assert Effective(a, early) == AGING && Effective(b, early) == AGING + lead;
      assert Level(AGING) == 1;
      LevelMonotone(AGING + lead, AGING - 1);
      assert !Less(a, b, early);
    }
  }

  /** A task of priority P goes before every task of priority 0 or worse submitted at least 10*P+20
      seconds later, whenever the two are compared: nothing waits forever behind newcomers. */
  lemma AgedTaskGoesFirst(a: Task, b: Task, now: int)
    requires b.priority >= 0
    requires b.submitTime >= a.submitTime + (10 * a.priority + 20) * SECOND
    ensures Less(a, b, now) && !Less(b, a, now)
  {
    assert Lead(a, b) >= 2 * AGING;
    LeadSeparatesLevels(a, b, now);
    LessIsLexicographic(a, b, now);
    LessIsLexicographic(b, a, now);
  }
}
