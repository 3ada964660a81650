/** What holds after a history because some event brought it about and no later one ended it. */
module History {
  import opened Prelude

  /** Event `i` brings it about, given what came before, and no later event ends it. */
  ghost predicate Standing<E(!new)>(h: seq<E>, i: nat, begins: (seq<E>, E) -> bool, ends: (seq<E>, E) -> bool) {
    i < |h| && begins(h[..i], h[i]) && forall j | i < j < |h| :: !ends(h[..j], h[j])
  }

  lemma StandingStep<E(!new)>(
    h: seq<E>, e: E, i: nat, begins: (seq<E>, E) -> bool, ends: (seq<E>, E) -> bool)
    ensures Standing(h + [e], i, begins, ends) <==>
            if i == |h| then begins(h, e) else Standing(h, i, begins, ends) && !ends(h, e)
  {
    var more := h + [e];
    assert more[..|h|] == h && more[|h|] == e;
    assert forall j | 0 <= j < |h| :: more[..j] == h[..j] && more[j] == h[j];
    if i < |h| && Standing(more, i, begins, ends) {
      assert !ends(more[..|h|], more[|h|]);
      forall j | i < j < |h| ensures !ends(h[..j], h[j]) {
        assert !ends(more[..j], more[j]);
      }
    }
  }

  ghost predicate NeverEnded<E(!new)>(h: seq<E>, ends: (seq<E>, E) -> bool) {
    forall j | 0 <= j < |h| :: !ends(h[..j], h[j])
  }

  lemma NeverEndedStep<E(!new)>(h: seq<E>, e: E, ends: (seq<E>, E) -> bool)
    ensures NeverEnded(h + [e], ends) <==> NeverEnded(h, ends) && !ends(h, e)
  {
    var more := h + [e];
    assert more[..|h|] == h && more[|h|] == e;
    assert forall j | 0 <= j < |h| :: more[..j] == h[..j] && more[j] == h[j];
    if NeverEnded(more, ends) {
      forall j | 0 <= j < |h| ensures !ends(h[..j], h[j]) {
        assert !ends(more[..j], more[j]);
      }
      assert !ends(more[..|h|], more[|h|]);
    }
  }

  /** A property that each event changes in this way holds exactly when some event is standing, or it
      held at the start and was never ended. */
  lemma {:induction false} HoldsIffStanding<E(!new)>(
    h: seq<E>, holds: seq<E> -> bool, begins: (seq<E>, E) -> bool, ends: (seq<E>, E) -> bool)
    requires forall p: seq<E>, e: E :: holds(p + [e]) <==> begins(p, e) || (holds(p) && !ends(p, e))
    ensures holds(h) <==> (exists i: nat :: Standing(h, i, begins, ends)) || (holds([]) && NeverEnded(h, ends))
  {
    if h == [] {
    } else {
      var before, e := h[..|h| - 1], h[|h| - 1];
      SplitLast(h);
      HoldsIffStanding(before, holds, begins, ends);
      assert holds(before + [e]) <==> begins(before, e) || (holds(before) && !ends(before, e));
      NeverEndedStep(before, e, ends);
      StandingStep(before, e, |before|, begins, ends);
      if i: nat :| Standing(before, i, begins, ends) {
        StandingStep(before, e, i, begins, ends);
      }
      if i: nat :| Standing(h, i, begins, ends) {
        StandingStep(before, e, i, begins, ends);
      }
    }
  }
}
