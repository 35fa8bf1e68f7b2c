/** What the two caches mean: which history of pod events they stand for, and exactly when they do. */
module ScanHistory {
  import opened ScanDedup
  import opened ScanRuns

  /** The image of `slug` in the latest event that resolved it. */
  ghost predicate LatestImage(events: seq<seq<Visit>>, slug: string, image: string)
    decreases |events|
  {
    events != [] &&
    var n := |events| - 1;
    if exists v :: v in events[n] && v.data.Ok? && v.slug == slug
    then exists v :: v in events[n] && v.data.Ok? && v.slug == slug && v.image == image
    else LatestImage(events[..n], slug, image)
  }

  /** The slug cache has each slug's image in the latest event that resolved it, and no other slug. */
  ghost predicate SlugsAgree(events: seq<seq<Visit>>) {
    forall s, image :: (s in Run(events).caches.slugToImageID && Run(events).caches.slugToImageID[s] == image)
                       <==> LatestImage(events, s, image)
  }

  /** The covered keys are those of all the containers ever resolved. */
  ghost predicate KeysAgree(events: seq<seq<Visit>>) {
    forall k :: k in Run(events).caches.wlidAndImageID <==> exists v :: Resolved(events, v) && Key(v) == k
  }

  ghost predicate SlugsAlwaysAgree(events: seq<seq<Visit>>) {
    SlugsAgree(events) && (events != [] ==> SlugsAlwaysAgree(events[..|events| - 1]))
  }

  ghost predicate CachesAlwaysAgree(events: seq<seq<Visit>>) {
    SlugsAgree(events) && KeysAgree(events) && (events != [] ==> CachesAlwaysAgree(events[..|events| - 1]))
  }

  /** Whatever the images: a slug is cached exactly when some event of the run resolved it. */
  lemma {:induction false} CachedSlugsExactly(events: seq<seq<Visit>>)
    requires Events(events)
    ensures forall s :: s in Run(events).caches.slugToImageID <==> exists v :: Resolved(events, v) && v.slug == s
  {
    if events != [] {
      var n := |events| - 1;
      var vs, c := events[n], Run(events[..n]).caches;
      CachedSlugsExactly(events[..n]);
      EventSettles(c, vs);
      forall v
        ensures Resolved(events, v) <==> Resolved(events[..n], v) || (v.data.Ok? && v in vs)
      {
        ResolvedSplit(events, v);
      }
      forall v | v in vs && v.data.Ok?
        ensures v.slug in Run(events).caches.slugToImageID
      {
        assert v in Elements(vs);
        assert Active(c, v) ==> v.slug in ActiveSlugs(c, Elements(vs));
      }
    }
  }

  // ---------------------------------------------------------------- the exact conditions

  /** The event resolves the slug to an image that the slug did not have before. */
  ghost predicate NewImage(before: seq<seq<Visit>>, v: Visit) {
    v.data.Ok? && !LatestImage(before, v.slug, v.image)
  }

  /** Whenever a slug reports a new image, that image is also the one resolved for its container. */
  ghost predicate NewImagesAgree(events: seq<seq<Visit>>) {
    events != [] ==>
      var before, vs := events[..|events| - 1], events[|events| - 1];
      NewImagesAgree(before) && forall v | v in vs && NewImage(before, v) :: v.data.value.imageID == v.image
  }

  /** A slug that reports the image it had has a key of an earlier container, or of one with a new image. */
  ghost predicate KeyKnown(before: seq<seq<Visit>>, vs: seq<Visit>, v: Visit)
    requires v.data.Ok?
  {
    || (exists w :: Resolved(before, w) && Key(w) == Key(v))
    || (exists w :: w in vs && NewImage(before, w) && Key(w) == Key(v))
  }

  ghost predicate OldImagesKeepKeys(events: seq<seq<Visit>>) {
    events != [] ==>
      var before, vs := events[..|events| - 1], events[|events| - 1];
      && OldImagesKeepKeys(before)
      && forall v | v in vs && v.data.Ok? && !NewImage(before, v) :: KeyKnown(before, vs, v)
  }

  lemma NewImageIsActive(before: seq<seq<Visit>>, v: Visit)
    requires SlugsAgree(before)
    ensures Active(Run(before).caches, v) <==> NewImage(before, v)
  {
    assert LatestImage(before, v.slug, v.image) <==>
           Cached(Run(before).caches, v) && Run(before).caches.slugToImageID[v.slug] == v.image;
  }

  lemma SlugAfterEvent(c: Caches, vs: seq<Visit>, v: Visit)
    requires OneEvent(vs) && v in vs && v.data.Ok?
    ensures var c' := HandleEvent(c, vs).caches;
            v.slug in c'.slugToImageID
            && c'.slugToImageID[v.slug] == if Active(c, v) then v.data.value.imageID else v.image
  {
    EventSettles(c, vs);
    assert v in Elements(vs);
    if Active(c, v) {
      assert v.slug in ActiveSlugs(c, Elements(vs));
    } else {
      SlugsTellVisitsApart(vs, v);
      assert v.slug !in ActiveSlugs(c, Elements(vs));
    }
  }

  lemma SlugsTellVisitsApart(vs: seq<Visit>, v: Visit)
    requires OneEvent(vs) && v in vs
    ensures forall w | w in vs && w.slug == v.slug :: w == v
  {
  }

  lemma LatestAfterEvent(events: seq<seq<Visit>>, v: Visit, image: string)
    requires Events(events) && events != [] && v in events[|events| - 1] && v.data.Ok?
    ensures LatestImage(events, v.slug, image) <==> image == v.image
  {
    SlugsTellVisitsApart(events[|events| - 1], v);
  }

  lemma SlugsAgreeNext(events: seq<seq<Visit>>)
    requires Events(events) && events != [] && SlugsAgree(events[..|events| - 1])
    ensures var before, vs := events[..|events| - 1], events[|events| - 1];
            SlugsAgree(events) <==> forall v | v in vs && NewImage(before, v) :: v.data.value.imageID == v.image
  {
    var before, vs := events[..|events| - 1], events[|events| - 1];
    var c, c' := Run(before).caches, Run(events).caches;
    forall v | v in vs && v.data.Ok?
      ensures v.slug in c'.slugToImageID
      ensures c'.slugToImageID[v.slug] == if NewImage(before, v) then v.data.value.imageID else v.image
      ensures forall image :: LatestImage(events, v.slug, image) <==> image == v.image
    {
      SlugAfterEvent(c, vs, v);
      NewImageIsActive(before, v);
      forall image
        ensures LatestImage(events, v.slug, image) <==> image == v.image
      {
        LatestAfterEvent(events, v, image);
      }
    }
    EventSettles(c, vs);
    forall s, image | !exists v :: v in vs && v.data.Ok? && v.slug == s
      ensures (s in c'.slugToImageID && c'.slugToImageID[s] == image) <==> LatestImage(events, s, image)
    {
      assert s !in ActiveSlugs(c, Elements(vs));
      assert LatestImage(events, s, image) <==> LatestImage(before, s, image);
    }
    if SlugsAgree(events) {
      forall v | v in vs && NewImage(before, v)
        ensures v.data.value.imageID == v.image
      {
        assert LatestImage(events, v.slug, v.image);
      }
    }
  }

  /** At every point of a run the slug cache agrees with the history, if and only if every new image of a slug is
      also the one resolved for its container. */
  lemma {:induction false} SlugsAgreeExactly(events: seq<seq<Visit>>)
    requires Events(events)
    ensures SlugsAlwaysAgree(events) <==> NewImagesAgree(events)
  {
    if events != [] {
      SlugsAgreeExactly(events[..|events| - 1]);
      if SlugsAlwaysAgree(events[..|events| - 1]) {
        SlugsAgreeNext(events);
      }
    }
  }

  lemma CoveredAfterEvent(events: seq<seq<Visit>>, k: string)
    requires Events(events) && events != []
    requires SlugsAgree(events[..|events| - 1]) && KeysAgree(events[..|events| - 1])
    ensures var before, vs := events[..|events| - 1], events[|events| - 1];
            k in Run(events).caches.wlidAndImageID <==>
            (exists w :: Resolved(before, w) && Key(w) == k) || (exists w :: w in vs && NewImage(before, w) && Key(w) == k)
  {
    var before, vs := events[..|events| - 1], events[|events| - 1];
    var c := Run(before).caches;
    EventSettles(c, vs);
    forall v
      ensures Active(c, v) <==> NewImage(before, v)
    {
      NewImageIsActive(before, v);
    }
    assert k in ActiveKeys(c, Elements(vs)) <==> exists w :: w in vs && NewImage(before, w) && Key(w) == k;
  }

  lemma KeysAgreeNext(events: seq<seq<Visit>>)
    requires Events(events) && events != []
    requires SlugsAgree(events[..|events| - 1]) && KeysAgree(events[..|events| - 1])
    ensures var before, vs := events[..|events| - 1], events[|events| - 1];
            KeysAgree(events) <==> forall v | v in vs && v.data.Ok? && !NewImage(before, v) :: KeyKnown(before, vs, v)
  {
    var before, vs := events[..|events| - 1], events[|events| - 1];
    forall v
      ensures Resolved(events, v) <==> Resolved(before, v) || (v.data.Ok? && v in vs)
    {
      ResolvedSplit(events, v);
    }
    if KeysAgree(events) {
      forall v | v in vs && v.data.Ok?
        ensures KeyKnown(before, vs, v)
      {
        assert Resolved(events, v);
        CoveredAfterEvent(events, Key(v));
      }
    } else {
      var k :| !(k in Run(events).caches.wlidAndImageID <==> exists v :: Resolved(events, v) && Key(v) == k);
      CoveredAfterEvent(events, k);
      var v :| Resolved(events, v) && Key(v) == k;
      assert !KeyKnown(before, vs, v);
    }
  }

  /** At every point of a run both caches agree with the history, if and only if moreover every slug that reports
      the image it had has a key that is known from an earlier container or comes with a new image. */
  lemma {:induction false} CachesAgreeExactly(events: seq<seq<Visit>>)
    requires Events(events)
    ensures CachesAlwaysAgree(events) <==> NewImagesAgree(events) && OldImagesKeepKeys(events)
  {
    if events != [] {
      CachesAgreeExactly(events[..|events| - 1]);
      if CachesAlwaysAgree(events[..|events| - 1]) {
        SlugsAgreeNext(events);
        KeysAgreeNext(events);
      }
    }
  }

  // ---------------------------------------------------------------- a simple sufficient condition

  /** Every resolved image is the one reported for the slug. */
  ghost predicate Agreeing(events: seq<seq<Visit>>) {
    forall v | Resolved(events, v) :: v.data.value.imageID == v.image
  }

  /** A slug stands for one container of one workload: once it resolved to an image, reporting that image again
      concerns the same key. */
  ghost predicate StableKeys(events: seq<seq<Visit>>) {
    forall v, w | Resolved(events, v) && Resolved(events, w) && v.slug == w.slug && v.data.value.imageID == w.image :: Key(v) == Key(w)
  }

  lemma {:induction false} AgreeingImages(events: seq<seq<Visit>>)
    requires Agreeing(events)
    ensures NewImagesAgree(events)
  {
    if events != [] {
      forall v
        ensures Resolved(events, v) <==>
                Resolved(events[..|events| - 1], v) || (v.data.Ok? && v in events[|events| - 1])
      {
        ResolvedSplit(events, v);
      }
      AgreeingImages(events[..|events| - 1]);
    }
  }

  /** A slug that has an image has it from an event that resolved it. */
  lemma {:induction false} LatestIsResolved(events: seq<seq<Visit>>, slug: string, image: string) returns (v: Visit)
    requires LatestImage(events, slug, image)
    ensures Resolved(events, v) && v.slug == slug && v.image == image
  {
    var n := |events| - 1;
    if v0 :| v0 in events[n] && v0.data.Ok? && v0.slug == slug {
      v :| v in events[n] && v.data.Ok? && v.slug == slug && v.image == image;
    } else {
      v := LatestIsResolved(events[..n], slug, image);
    }
    ResolvedSplit(events, v);
  }

  lemma {:induction false} StableKeysAreKept(events: seq<seq<Visit>>)
    requires Agreeing(events) && StableKeys(events)
    ensures OldImagesKeepKeys(events)
  {
    if events != [] {
      var before, vs := events[..|events| - 1], events[|events| - 1];
      forall v
        ensures Resolved(events, v) <==> Resolved(before, v) || (v.data.Ok? && v in vs)
      {
        ResolvedSplit(events, v);
      }
      StableKeysAreKept(before);
      forall v | v in vs && v.data.Ok? && !NewImage(before, v)
        ensures KeyKnown(before, vs, v)
      {
        var w := LatestIsResolved(before, v.slug, v.image);
        assert Resolved(events, v) && Resolved(events, w);
      }
    }
  }

  /** If resolved and reported images agree and a slug stands for one key, both caches always agree. */
  lemma CachesAgreeWithHistory(events: seq<seq<Visit>>)
    requires Events(events) && Agreeing(events) && StableKeys(events)
    ensures CachesAlwaysAgree(events)
  {
    AgreeingImages(events);
    StableKeysAreKept(events);
    CachesAgreeExactly(events);
  }
}
