/** Whole runs of the pod handler: any sequence of pod events, handled one at a time from empty caches. */
module ScanRuns {
  import opened ScanDedup
  import opened ScanOrder

  datatype RunState = RunState(caches: Caches, log: seq<Submission>)

  ghost function Run(events: seq<seq<Visit>>): RunState {
    if events == [] then RunState(EMPTY_CACHES, [])
    else
      var r := Run(events[..|events| - 1]);
      var s := HandleEvent(r.caches, events[|events| - 1]);
      RunState(s.caches, r.log + s.submitted)
  }

  ghost predicate Events(events: seq<seq<Visit>>) {
    forall i | 0 <= i < |events| :: OneEvent(events[i])
  }

  /** Some event of the run made this visit and resolved its container data. */
  ghost predicate Resolved(events: seq<seq<Visit>>, v: Visit) {
    v.data.Ok? && exists i :: 0 <= i < |events| && v in events[i]
  }

  lemma ResolvedSplit(events: seq<seq<Visit>>, v: Visit)
    requires events != []
    ensures Resolved(events, v) <==>
            Resolved(events[..|events| - 1], v) || (v.data.Ok? && v in events[|events| - 1])
  {
    var n := |events| - 1;
    if Resolved(events[..n], v) {
      var i :| 0 <= i < n && v in events[..n][i];
      assert v in events[i];
    }
  }

  // ---------------------------------------------------------------- no false coverage

  ghost predicate Justified(events: seq<seq<Visit>>, log: seq<Submission>, key: string) {
    exists v :: Resolved(events, v) && Key(v) == key && CommandOf(v) in Commands(log)
  }

  ghost predicate Backed(events: seq<seq<Visit>>, c: Caches, slug: string)
    requires slug in c.slugToImageID
  {
    exists v :: Resolved(events, v) && v.slug == slug && v.data.value.imageID == c.slugToImageID[slug]
                && Key(v) in c.wlidAndImageID
  }

  lemma NewKeyHasCommand(c: Caches, vs: seq<Visit>, key: string) returns (v: Visit)
    requires OneEvent(vs) && key in HandleEvent(c, vs).caches.wlidAndImageID && key !in c.wlidAndImageID
    ensures v in vs && v.data.Ok? && Key(v) == key && CommandOf(v) in Commands(HandleEvent(c, vs).submitted)
  {
    EventSettles(c, vs);
    var i := FirstWithKey(c, vs, key);
    v := vs[i];
    TurnAt(c, vs, i);
    EventSubmits(c, vs);
    assert CommandOf(v) in TurnCommands(Turns(c, vs));
    assert CommandOf(v) in multiset(Commands(HandleEvent(c, vs).submitted));
  }

  /** Every covered key belongs to a container for which the run submitted its own image scan or the scan of its
      application profile, and every cached slug's image is covered. Cutting the last event short after any
      turn gives a run too, so this holds between turns as well. */
  lemma {:induction false} NoFalseCoverage(events: seq<seq<Visit>>)
    requires Events(events)
    ensures forall k | k in Run(events).caches.wlidAndImageID :: Justified(events, Run(events).log, k)
    ensures forall s | s in Run(events).caches.slugToImageID :: Backed(events, Run(events).caches, s)
  {
    if events != [] {
      var n := |events| - 1;
      var vs, r, r' := events[n], Run(events[..n]), Run(events);
      NoFalseCoverage(events[..n]);
      EventSettles(r.caches, vs);
      forall k | k in r'.caches.wlidAndImageID
        ensures Justified(events, r'.log, k)
      {
        LogGrows(r.log, HandleEvent(r.caches, vs).submitted);
        var v: Visit;
        if k in r.caches.wlidAndImageID {
          v :| Resolved(events[..n], v) && Key(v) == k && CommandOf(v) in Commands(r.log);
        } else {
          v := NewKeyHasCommand(r.caches, vs, k);
        }
        ResolvedSplit(events, v);
      }
      forall s | s in r'.caches.slugToImageID
        ensures Backed(events, r'.caches, s)
      {
        var v: Visit;
        if s in ActiveSlugs(r.caches, Elements(vs)) {
          v :| v in Elements(vs) && Active(r.caches, v) && v.slug == s;
          assert Key(v) in ActiveKeys(r.caches, Elements(vs));
        } else {
          assert Backed(events[..n], r.caches, s);
          v :| Resolved(events[..n], v) && v.slug == s && v.data.value.imageID == r.caches.slugToImageID[s]
               && Key(v) in r.caches.wlidAndImageID;
        }
        ResolvedSplit(events, v);
      }
    }
  }

  lemma LogGrows(log: seq<Submission>, more: seq<Submission>)
    ensures Commands(log + more) == Commands(log) + Commands(more)
  {
  }

  // ---------------------------------------------------------------- scan budget

  /** How many visits of an event find their slug cached with another image than the pod now reports. */
  ghost function ImageChanges(c: Caches, vs: seq<Visit>): nat {
    if vs == [] then 0
    else
      var v := vs[|vs| - 1];
      ImageChanges(c, vs[..|vs| - 1]) + if Cached(c, v) && Active(c, v) then 1 else 0
  }

  ghost function RunImageChanges(events: seq<seq<Visit>>): nat {
    if events == [] then 0
    else
      var n := |events| - 1;
      RunImageChanges(events[..n]) + ImageChanges(Run(events[..n]).caches, events[n])
  }

  /** No two commands went through the new-slug path with one key, and all those keys are in `keys`. */
  ghost predicate NewSlugOnce(log: seq<Submission>, keys: set<string>) {
    && (forall i | 0 <= i < |log| :: log[i].newSlug ==> log[i].key in keys)
    && (forall i, j | 0 <= i < j < |log| :: log[i].newSlug && log[j].newSlug ==> log[i].key != log[j].key)
  }

  lemma TurnWithinBudget(s: State, log: seq<Submission>, v: Visit)
    requires NewSlugOnce(log + s.submitted, s.caches.wlidAndImageID)
    ensures var s' := VisitSlug(s, v);
            && |s'.submitted| + |s.caches.wlidAndImageID| <= |s.submitted| + |s'.caches.wlidAndImageID|
               + (if Cached(s.caches, v) && Active(s.caches, v) then 1 else 0)
            && NewSlugOnce(log + s'.submitted, s'.caches.wlidAndImageID)
  {
    var s' := VisitSlug(s, v);
    VisitUpdatesCaches(s, v);
    if Active(s.caches, v) && Key(v) in s.caches.wlidAndImageID {
      assert s.caches.wlidAndImageID + {Key(v)} == s.caches.wlidAndImageID;
    }
    if s'.submitted != s.submitted {
      var sub := s'.submitted[|s.submitted|];
      assert log + s'.submitted == (log + s.submitted) + [sub];
      assert sub.newSlug ==> Key(v) !in s.caches.wlidAndImageID;
    }
  }

  lemma {:induction false} EventWithinBudget(c: Caches, log: seq<Submission>, vs: seq<Visit>)
    requires OneEvent(vs) && NewSlugOnce(log, c.wlidAndImageID)
    ensures var s := HandleEvent(c, vs);
            && |s.submitted| + |c.wlidAndImageID| <= |s.caches.wlidAndImageID| + ImageChanges(c, vs)
            && NewSlugOnce(log + s.submitted, s.caches.wlidAndImageID)
  {
    if vs == [] {
      assert log + [] == log;
    } else {
      var n := |vs| - 1;
      OneEventPrefix(vs);
      EventWithinBudget(c, log, vs[..n]);
      LaterTurnSeesItsOwnSlug(c, vs);
      TurnWithinBudget(HandleEvent(c, vs[..n]), log, vs[n]);
    }
  }

  /** Over any run, the commands number at most the covered keys plus the image changes on cached slugs, and
      each key is submitted at most once for a new slug. */
  lemma {:induction false} ScanBudget(events: seq<seq<Visit>>)
    requires Events(events)
    ensures |Run(events).log| <= |Run(events).caches.wlidAndImageID| + RunImageChanges(events)
    ensures NewSlugOnce(Run(events).log, Run(events).caches.wlidAndImageID)
  {
    if events != [] {
      var n := |events| - 1;
      ScanBudget(events[..n]);
      EventWithinBudget(Run(events[..n]).caches, Run(events[..n]).log, events[n]);
    }
  }

  // ---------------------------------------------------------------- redelivery

  lemma {:induction false} NothingActive(s: State, vs: seq<Visit>)
    requires forall v | v in vs :: !Active(s.caches, v)
    ensures VisitAll(s, vs) == s
  {
    if vs != [] {
      NothingActive(s, vs[..|vs| - 1]);
    }
  }

  /** Handling an event again, in any order, submits nothing and changes neither cache, exactly when every visit
      that was active the first time resolved to the image the pod's statuses report for its slug. */
  lemma RedeliveryIsQuietExactly(c: Caches, vs: seq<Visit>, ws: seq<Visit>)
    requires SameVisits(vs, ws)
    ensures var c' := HandleEvent(c, vs).caches;
            HandleEvent(c', ws) == State(c', {}, []) <==>
            forall v | v in vs && Active(c, v) :: v.data.value.imageID == v.image
  {
    var c' := HandleEvent(c, vs).caches;
    EventSettles(c, vs);
    forall v | v in vs
      ensures Active(c', v) ==> Active(c, v) && Cached(c', v)
      ensures Active(c, v) ==> (Active(c', v) <==> v.data.value.imageID != v.image)
    {
      assert v in Elements(vs);
      if v.slug in ActiveSlugs(c, Elements(vs)) {
        var w :| w in Elements(vs) && Active(c, w) && w.slug == v.slug;
        assert w == v;
      }
    }
    if forall v | v in vs && Active(c, v) :: v.data.value.imageID == v.image {
      assert forall w | w in ws :: w in Elements(ws);
      NothingActive(State(c', {}, []), ws);
    } else {
      var v :| v in vs && Active(c, v) && v.data.value.imageID != v.image;
      assert v in Elements(ws);
      var i :| 0 <= i < |ws| && ws[i] == v;
      TurnAt(c', ws, i);
      EventSubmits(c', ws);
      assert CommandOf(v) in TurnCommands(Turns(c', ws));
      assert CommandOf(v) in multiset(Commands(HandleEvent(c', ws).submitted));
    }
  }
}
