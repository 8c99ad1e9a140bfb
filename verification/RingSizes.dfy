/** Which queue sizes the 16-bit ring arithmetic supports: exactly those that divide 2^16. */
module RingSizes {
  import opened Words
  import opened VirtRing

  const ELEM := UsedElem(0, 0)

  /** One buffer that travels all the way round. */
  const CYCLE: seq<Action> := [Publish(0), Pop, Push(ELEM), Consume]

  /** Histories of lengths p, o, u and c, none past the first wrap, with indices to match. */
  ghost predicate Counts(w: World, p: nat, o: nat, u: nat, c: nat) {
    && Live(w)
    && c <= u <= o <= p < TWO_16
    && w.q.availIdx == p && w.q.lastAvail == o && w.q.usedIdx == u && w.seen == c
    && |w.published| == p && |w.popped| == o && |w.pushed| == u && |w.consumed| == c
  }

  /** n heads have made the round trip and nothing is outstanding. */
  ghost predicate AtRest(w: World, n: nat) {
    Counts(w, n, n, n, n)
  }

  lemma CountPublish(w: World, p: nat, o: nat, u: nat, c: nat, head: U16)
    requires Counts(w, p, o, u, c) && p + 1 < TWO_16 && head < w.q.size && p - c < w.q.size
    ensures Enabled(w, Publish(head)) && Counts(Next(w, Publish(head)), p + 1, o, u, c)
  {
  }

  lemma CountPop(w: World, p: nat, o: nat, u: nat, c: nat)
    requires Counts(w, p, o, u, c) && o < p
    ensures Counts(Next(w, Pop), p, o + 1, u, c)
  {
  }

  lemma CountPush(w: World, p: nat, o: nat, u: nat, c: nat)
    requires Counts(w, p, o, u, c) && u < o
    ensures Enabled(w, Push(ELEM)) && Counts(Next(w, Push(ELEM)), p, o, u + 1, c)
  {
  }

  lemma CountConsume(w: World, p: nat, o: nat, u: nat, c: nat)
    requires Counts(w, p, o, u, c) && c < u
    ensures Counts(Next(w, Consume), p, o, u, c + 1)
  {
  }

  lemma CycleStep(w: World, n: nat)
    requires AtRest(w, n) && n + 1 < TWO_16
    ensures Feasible(w, CYCLE) && AtRest(Run(w, CYCLE), n + 1)
  {
    var w1 := Next(w, Publish(0));
    var w2 := Next(w1, Pop);
    var w3 := Next(w2, Push(ELEM));
    CountPublish(w, n, n, n, n, 0);
    CountPop(w1, n + 1, n, n, n);
    CountPush(w2, n + 1, n + 1, n, n);
    CountConsume(w3, n + 1, n + 1, n + 1, n);
    RunTwo(w, Publish(0), Pop);
    RunTwo(w2, Push(ELEM), Consume);
    RunConcat(w, [Publish(0), Pop], [Push(ELEM), Consume]);
    assert CYCLE == [Publish(0), Pop] + [Push(ELEM), Consume];
  }

  lemma RunOne(w: World, a: Action)
    requires Live(w) && Enabled(w, a)
    ensures Feasible(w, [a]) && Run(w, [a]) == Next(w, a)
  {
  }

  lemma RunTwo(w: World, a: Action, b: Action)
    requires Live(w) && Enabled(w, a) && Enabled(Next(w, a), b)
    ensures Feasible(w, [a, b]) && Run(w, [a, b]) == Next(Next(w, a), b)
  {
    RunOne(Next(w, a), b);
    assert [a, b][1..] == [b];
  }

  lemma {:induction false} Cycles(w: World, n: nat) returns (acts: seq<Action>)
    requires Initial(w) && n < TWO_16
    ensures Feasible(w, acts) && AtRest(Run(w, acts), n)
  {
    if n == 0 {
      acts := [];
    } else {
      var before := Cycles(w, n - 1);
      CycleStep(Run(w, before), n - 1);
      RunConcat(w, before, CYCLE);
      acts := before + CYCLE;
    }
  }

  /** m heads 0 are outstanding, n more have made the round trip. */
  ghost predicate Filled(w: World, n: nat, m: nat) {
    && Live(w) && m <= w.q.size && n + m <= TWO_16 && n < TWO_16
    && w.q.availIdx == (n + m) % TWO_16 && w.q.lastAvail == n
    && |w.published| == n + m && |w.popped| == |w.consumed| == n
    && forall k :: n <= k < n + m ==> w.published[k] == 0
  }

  lemma FillStep(w: World, n: nat, m: nat)
    requires Filled(w, n, m) && m < w.q.size && n + m < TWO_16
    ensures Enabled(w, Publish(0)) && Filled(Next(w, Publish(0)), n, m + 1)
  {
    IncOfCount(n + m);
    var next := Next(w, Publish(0));
    assert next.q.lastAvail == n && next.popped == w.popped && next.consumed == w.consumed;
    assert next.published == w.published + [0];
  }

  lemma {:induction false} PublishMany(w: World, n: nat, m: nat) returns (acts: seq<Action>)
    requires AtRest(w, n) && m <= w.q.size && n + m <= TWO_16
    ensures Feasible(w, acts) && Filled(Run(w, acts), n, m)
  {
    if m == 0 {
      acts := [];
    } else {
      var before := PublishMany(w, n, m - 1);
      FillStep(Run(w, before), n, m - 1);
      RunOne(Run(w, before), Publish(0));
      RunConcat(w, before, [Publish(0)]);
      acts := before + [Publish(0)];
    }
  }

  /** A size that does not divide 2^16 has a run in which the wrap makes two outstanding heads share
      a slot, so the ring no longer holds what was published. */
  lemma OtherSizesLoseAnEntry(w: World) returns (acts: seq<Action>)
    requires Initial(w) && TWO_16 % w.q.size != 0
    ensures Feasible(w, acts) && !Refined(Run(w, acts))
  {
    var r := TWO_16 % w.q.size;
    var n := TWO_16 - r;
    var round := Cycles(w, n);
    var rest := Run(w, round);
    var fill := PublishMany(rest, n, r);
    RunConcat(w, round, fill);
    var full := Run(rest, fill);
    RunOne(full, Publish(1));
    acts := round + fill + [Publish(1)];
    RunConcat(w, round + fill, [Publish(1)]);
    var last := Next(full, Publish(1));
    assert Run(w, acts) == last;
    BottomSlots(w.q.size);
    assert last.q.availIdx == 1 && last.q.lastAvail == n;
    assert last.q.avail[0] == 1 && last.published[n] == 0;
    assert Distance(n, 1) == r + 1;
    assert Pending(last.q)[0] == last.q.avail[SlotOf(n, last.q.size)];
    assert (last.popped + Pending(last.q))[n] == 1;
  }

  lemma BottomSlots(size: nat)
    requires size > 0
    ensures SlotOf(TWO_16 - TWO_16 % size, size) == 0 && SlotOf(0, size) == 0
  {
    DivModUnique(TWO_16 - TWO_16 % size, size, TWO_16 / size, 0);
  }

  /** The refinement holds over all runs if and only if the queue size divides 2^16. */
  lemma RefinedIffSizeDivides(w: World)
    requires Initial(w)
    ensures (forall acts :: Feasible(w, acts) ==> Refined(Run(w, acts))) <==> TWO_16 % w.q.size == 0
  {
    if TWO_16 % w.q.size == 0 {
      forall acts | Feasible(w, acts) ensures Refined(Run(w, acts)) {
        EveryRunRefines(w, acts);
      }
    } else {
      var acts := OtherSizesLoseAnEntry(w);
    }
  }
}
