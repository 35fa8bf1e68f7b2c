/** The handler's loop ranges over a map, whose order Go leaves open: what of its outcome depends on that order. */
module ScanOrder {
  import opened ScanDedup

  ghost predicate SameVisits(vs: seq<Visit>, ws: seq<Visit>) {
    OneEvent(vs) && OneEvent(ws) && Elements(vs) == Elements(ws)
  }

  ghost function Submitted(c: Caches, vs: seq<Visit>): multiset<Command> {
    multiset(Commands(HandleEvent(c, vs).submitted))
  }

  /** Both caches end up the same whatever the order of the loop. */
  lemma CachesIgnoreOrder(c: Caches, vs: seq<Visit>, ws: seq<Visit>)
    requires SameVisits(vs, ws)
    ensures HandleEvent(c, vs).caches == HandleEvent(c, ws).caches
  {
    EventSettles(c, vs);
    EventSettles(c, ws);
    var c1, c2 := HandleEvent(c, vs).caches, HandleEvent(c, ws).caches;
    forall s | s in c1.slugToImageID
      ensures c1.slugToImageID[s] == c2.slugToImageID[s]
    {
      if s in ActiveSlugs(c, Elements(vs)) {
        var v :| v in Elements(vs) && Active(c, v) && v.slug == s;
      }
    }
  }

  // ---------------------------------------------------------------- which turns get past use case 5

  /** The visits that some order lets past use cases 5 and 6. */
  ghost function Eligible(c: Caches, vs: set<Visit>): set<Visit> {
    set v | v in vs && Active(c, v) && (Cached(c, v) || Key(v) !in c.wlidAndImageID)
  }

  lemma {:induction false} TurnAt(c: Caches, vs: seq<Visit>, i: nat)
    requires OneEvent(vs) && i < |vs|
    ensures vs[i] in Turns(c, vs) <==>
            vs[i] in Eligible(c, Elements(vs)) && (Cached(c, vs[i]) || Key(vs[i]) !in ActiveKeys(c, Elements(vs[..i])))
  {
    var n := |vs| - 1;
    OneEventPrefix(vs);
    if i < n {
      TurnAt(c, vs[..n], i);
      assert vs[..n][..i] == vs[..i];
    } else {
      assert vs[n] !in Turns(c, vs[..n]);
    }
  }

  lemma TurnsAreEligible(c: Caches, vs: seq<Visit>)
    requires OneEvent(vs)
    ensures Turns(c, vs) <= Eligible(c, Elements(vs))
  {
    forall v | v in Turns(c, vs)
      ensures v in Eligible(c, Elements(vs))
    {
      var i :| 0 <= i < |vs| && vs[i] == v;
      TurnAt(c, vs, i);
    }
  }

  ghost predicate DistinctKeys(c: Caches, vs: set<Visit>) {
    forall v, w | v in vs && w in vs && Active(c, v) && Active(c, w) && Key(v) == Key(w) :: v == w
  }

  /** When the keys of an event are pairwise distinct, every order submits the same commands: one profile scan
      for each no-container slug that has a profile and a visit past use cases 5 and 6, one image scan for each
      such visit without a profile. */
  lemma CommandsIgnoreOrderIfKeysDistinct(c: Caches, vs: seq<Visit>)
    requires OneEvent(vs) && DistinctKeys(c, Elements(vs))
    ensures Submitted(c, vs) == multiset(TurnCommands(Eligible(c, Elements(vs))))
  {
    forall v | v in Eligible(c, Elements(vs))
      ensures v in Turns(c, vs)
    {
      var i :| 0 <= i < |vs| && vs[i] == v;
      TurnAt(c, vs, i);
      assert forall w | w in vs[..i] :: w.slug != v.slug;
    }
    TurnsAreEligible(c, vs);
    assert Turns(c, vs) == Eligible(c, Elements(vs));
    EventSubmits(c, vs);
  }

  // ---------------------------------------------------------------- the exact condition

  /** Visit `u` goes through in every order, or else another visit with no-container slug `n` does in its place. */
  ghost predicate Guaranteed(c: Caches, vs: set<Visit>, u: Visit, n: string)
    requires u.data.Ok?
  {
    Cached(c, u) || forall w | w in vs && Active(c, w) && Key(w) == Key(u) :: w.noContainerSlug == n
  }

  /** An image scan needs the key for itself; a profile scan needs some visit of the same no-container slug to go through. */
  ghost predicate Certain(c: Caches, vs: set<Visit>, v: Visit)
    requires v.data.Ok?
  {
    if v.profile.None? then
      Cached(c, v) || forall w | w in vs && Active(c, w) && Key(w) == Key(v) :: w == v
    else
      exists u | u in Eligible(c, vs) && u.noContainerSlug == v.noContainerSlug :: Guaranteed(c, vs, u, v.noContainerSlug)
  }

  /** No command hinges on which of several visits with one key comes first. */
  ghost predicate Uncontested(c: Caches, vs: set<Visit>) {
    forall v | v in Eligible(c, vs) :: Certain(c, vs, v)
  }

  lemma {:induction false} FirstWithKey(c: Caches, vs: seq<Visit>, key: string) returns (i: nat)
    requires OneEvent(vs) && key in ActiveKeys(c, Elements(vs))
    ensures i < |vs| && Active(c, vs[i]) && Key(vs[i]) == key && key !in ActiveKeys(c, Elements(vs[..i]))
  {
    var n := |vs| - 1;
    OneEventPrefix(vs);
    if key in ActiveKeys(c, Elements(vs[..n])) {
      i := FirstWithKey(c, vs[..n], key);
      assert vs[..n][..i] == vs[..i];
    } else {
      i := n;
    }
  }

  lemma GuaranteedGoesThrough(c: Caches, vs: seq<Visit>, u: Visit, n: string) returns (t: Visit)
    requires OneEvent(vs) && u in Eligible(c, Elements(vs)) && u.noContainerSlug == n
    requires Guaranteed(c, Elements(vs), u, n)
    ensures t in Turns(c, vs) && t.noContainerSlug == n
  {
    var i: nat;
    if Cached(c, u) {
      i :| 0 <= i < |vs| && vs[i] == u;
    } else {
      i := FirstWithKey(c, vs, Key(u));
    }
    TurnAt(c, vs, i);
    t := vs[i];
  }

  lemma CertainImage(c: Caches, vs: seq<Visit>, v: Visit)
    requires OneEvent(vs) && v in Eligible(c, Elements(vs))
    requires v.profile.None? && Certain(c, Elements(vs), v)
    ensures v in Turns(c, vs)
  {
    var i :| 0 <= i < |vs| && vs[i] == v;
    TurnAt(c, vs, i);
    assert v !in Elements(vs[..i]);
  }

  lemma CertainCovers(c: Caches, vs: seq<Visit>, v: Visit)
    requires OneEvent(vs) && v in Eligible(c, Elements(vs)) && Certain(c, Elements(vs), v)
    ensures CommandOf(v) in TurnCommands(Turns(c, vs))
  {
    if v.profile.None? {
      CertainImage(c, vs, v);
    } else {
      var u :| u in Eligible(c, Elements(vs)) && u.noContainerSlug == v.noContainerSlug
               && Guaranteed(c, Elements(vs), u, v.noContainerSlug);
      var t := GuaranteedGoesThrough(c, vs, u, v.noContainerSlug);
      assert t in vs && v in vs;
      assert CommandOf(t) == CommandOf(v);
    }
  }

  ghost function Keep(vs: seq<Visit>, kept: set<Visit>): (r: seq<Visit>)
    ensures forall x :: x in r <==> x in vs && x in kept
  {
    if vs == [] then []
    else
      var n := |vs| - 1;
      assert vs == vs[..n] + [vs[n]];
      Keep(vs[..n], kept) + if vs[n] in kept then [vs[n]] else []
  }

  /** `vs` with the visits of `held` moved to the end. */
  ghost function Postpone(vs: seq<Visit>, held: set<Visit>): seq<Visit> {
    Keep(vs, Elements(vs) - held) + Keep(vs, held)
  }

  ghost predicate DistinctSlugs(vs: seq<Visit>) {
    forall i, j | 0 <= i < j < |vs| :: vs[i].slug != vs[j].slug
  }

  lemma {:induction false} KeepDistinct(vs: seq<Visit>, kept: set<Visit>)
    requires DistinctSlugs(vs)
    ensures DistinctSlugs(Keep(vs, kept))
  {
    if vs != [] {
      var n := |vs| - 1;
      KeepDistinct(vs[..n], kept);
      assert forall v | v in Keep(vs[..n], kept) :: v.slug != vs[n].slug;
    }
  }

  lemma PostponeSameVisits(vs: seq<Visit>, held: set<Visit>)
    requires OneEvent(vs) && held <= Elements(vs)
    ensures SameVisits(vs, Postpone(vs, held))
  {
    var a, b := Keep(vs, Elements(vs) - held), Keep(vs, held);
    KeepDistinct(vs, Elements(vs) - held);
    KeepDistinct(vs, held);
    assert forall v, w | v in a && w in b :: v.slug != w.slug;
    assert DistinctSlugs(a + b);
    assert forall v :: v in a + b <==> v in vs;
  }

  /** A visit ahead of all the others goes through if any order lets it. */
  lemma FirstGoesThrough(c: Caches, vs: seq<Visit>, v: Visit)
    requires OneEvent(vs) && v in Eligible(c, Elements(vs))
    ensures SameVisits(vs, Postpone(vs, Elements(vs) - {v}))
    ensures CommandOf(v) in TurnCommands(Turns(c, Postpone(vs, Elements(vs) - {v})))
  {
    var ws := Postpone(vs, Elements(vs) - {v});
    PostponeSameVisits(vs, Elements(vs) - {v});
    var a := Keep(vs, Elements(vs) - (Elements(vs) - {v}));
    assert v in a && a[0] in a;
    assert ws[0] == v;
    TurnAt(c, ws, 0);
  }

  /** Held back behind a visit with its key, a new slug does not go through. */
  lemma HeldBackDoesNot(c: Caches, vs: seq<Visit>, held: set<Visit>, u: Visit, w: Visit)
    requires OneEvent(vs) && held <= Elements(vs)
    requires u in held && w in Elements(vs) - held && u.data.Ok? && !Cached(c, u)
    requires Active(c, w) && Key(w) == Key(u)
    ensures u !in Turns(c, Postpone(vs, held))
  {
    var ws := Postpone(vs, held);
    PostponeSameVisits(vs, held);
    var a, b := Keep(vs, Elements(vs) - held), Keep(vs, held);
    assert w in a && u in b;
    var j :| 0 <= j < |b| && b[j] == u;
    var i := |a| + j;
    assert ws[i] == u && ws[..i] == a + b[..j];
    assert w in Elements(ws[..i]);
    TurnAt(c, ws, i);
  }

  /** The commands of an event are independent of the loop's order exactly when no command is contested. */
  lemma CommandsIgnoreOrderExactly(c: Caches, vs: seq<Visit>)
    requires OneEvent(vs)
    ensures (forall ws | SameVisits(vs, ws) :: Submitted(c, ws) == Submitted(c, vs)) <==> Uncontested(c, Elements(vs))
  {
    if Uncontested(c, Elements(vs)) {
      forall ws | SameVisits(vs, ws)
        ensures Submitted(c, ws) == multiset(TurnCommands(Eligible(c, Elements(vs))))
      {
        TurnsAreEligible(c, ws);
        forall v | v in Eligible(c, Elements(vs))
          ensures CommandOf(v) in TurnCommands(Turns(c, ws))
        {
          CertainCovers(c, ws, v);
        }
        assert TurnCommands(Turns(c, ws)) == TurnCommands(Eligible(c, Elements(vs)));
        EventSubmits(c, ws);
      }
      assert SameVisits(vs, vs);
    } else {
      ContestedOrders(c, vs);
    }
  }

  lemma ContestedOrders(c: Caches, vs: seq<Visit>)
    requires OneEvent(vs) && !Uncontested(c, Elements(vs))
    ensures exists ws :: SameVisits(vs, ws) && Submitted(c, ws) != Submitted(c, vs)
  {
    var all := Elements(vs);
    var v :| v in Eligible(c, all) && !Certain(c, all, v);
    var held := if v.profile.None? then {v} else set u | u in all && u.noContainerSlug == v.noContainerSlug;
    forall u | u in held && u in Eligible(c, all)
      ensures !Cached(c, u) && exists w :: w in all - held && Active(c, w) && Key(w) == Key(u)
    {
      assert v.profile.Some? ==> !Guaranteed(c, all, u, v.noContainerSlug);
    }
    TwoOrders(c, vs, v, held);
  }

  lemma TwoOrders(c: Caches, vs: seq<Visit>, v: Visit, held: set<Visit>)
    requires OneEvent(vs) && v in Eligible(c, Elements(vs)) && held <= Elements(vs)
    requires forall u | u in Elements(vs) && u.data.Ok? && CommandOf(u) == CommandOf(v) :: u in held
    requires forall u | u in held && u in Eligible(c, Elements(vs)) ::
               !Cached(c, u) && exists w :: w in Elements(vs) - held && Active(c, w) && Key(w) == Key(u)
    ensures exists ws :: SameVisits(vs, ws) && Submitted(c, ws) != Submitted(c, vs)
  {
    var early := Postpone(vs, Elements(vs) - {v});
    FirstGoesThrough(c, vs, v);
    EventSubmits(c, early);
    var late := Postpone(vs, held);
    PostponeSameVisits(vs, held);
    EventSubmits(c, late);
    TurnsAreEligible(c, late);
    forall u | u in Turns(c, late)
      ensures CommandOf(u) != CommandOf(v)
    {
      if u in held {
        var w :| w in Elements(vs) - held && Active(c, w) && Key(w) == Key(u);
        HeldBackDoesNot(c, vs, held, u, w);
      }
    }
    assert CommandOf(v) in Submitted(c, early) && CommandOf(v) !in Submitted(c, late);
  }

  /** Of two new containers with one key, the one visited first is scanned and the other one is not. */
  lemma TwoVisits(v: Visit, w: Visit)
    requires v.data.Ok? && w.data.Ok? && v.slug != w.slug && Key(v) == Key(w)
    requires v.data.value.slug == v.slug && w.data.value.slug == w.slug
    requires v.profile.None? && w.profile.None?
    ensures HandleEvent(EMPTY_CACHES, [v, w]).submitted == [Submission(CommandOf(v), Key(v), true)]
  {
    assert [v, w][..1] == [v] && [v][..0] == [];
    var s0 := State(EMPTY_CACHES, {}, []);
    var s1 := VisitSlug(s0, v);
    assert VisitAll(s0, [v]) == s1;
    assert w.slug !in s1.caches.slugToImageID && Key(w) in s1.caches.wlidAndImageID;
    assert VisitAll(s0, [v, w]) == VisitSlug(s1, w);
  }
}
