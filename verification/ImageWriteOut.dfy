/** Images are written to files early, while closer ones may still be coming. An image
    written out is final, and each attached image is written out exactly once. */
module ImageWriteOut {
  import opened Basics
  import opened Motion
  import opened MapperTypes
  import opened MapperSpec
  import opened SolveAtomicity
  import opened GnssAttachment

  // ----- The invariant -----

  /** The attached images are those still replaceable and those finished, each once. */
  ghost predicate Accounted<G>(x: ImagePart<G>) {
    && NoDuplicates(x.im.unwritten) && NoDuplicates(x.im.finished)
    && (forall e :: e in x.im.unwritten ==> HoldsPicture(x.kfs, e) && e.1 != GNSS && e !in x.im.finished)
    && (forall e :: e in x.im.finished ==> e.0 < |x.kfs| && e.1 in x.kfs[e.0].nearest && e.1 != GNSS)
    && (forall k: nat, slot {:trigger slot in x.kfs[k].nearest} ::
          k < |x.kfs| && slot in x.kfs[k].nearest && slot != GNSS ==>
            (k, slot) in x.im.unwritten || (k, slot) in x.im.finished)
  }

  /** The pictures that became files, of a list of finished entries. */
  function FilesOf<G>(kfs: seq<Keyframe<G>>, es: seq<(nat, string)>): seq<Picture>
    requires forall e :: e in es ==> e.0 < |kfs| && e.1 in kfs[e.0].nearest
  {
    if es == [] then []
    else
      var e := es[|es| - 1];
      var o := kfs[e.0].nearest[e.1].obs;
      FilesOf(kfs, es[..|es| - 1]) + if o.FileAux? then [o.picture] else []
  }

  /** No closer image of that camera can come: a later one is already farther. */
  ghost predicate Final<G>(kfs: seq<Keyframe<G>>, seen: seq<Picture>, e: (nat, string))
    requires e.0 < |kfs| && e.1 in kfs[e.0].nearest
  {
    && e.0 + 1 < |kfs|
    && exists q :: q in seen && e.1 == ImageSlot(q.sensor) && kfs[e.0].stamp + kfs[e.0].nearest[e.1].dt < q.stamp
  }

  /** After images `seen`. */
  ghost predicate ImageInvariant<G>(x: ImagePart<G>, seen: seq<Picture>) {
    && Accounted(x)
    && (forall e :: e in x.im.finished ==> Final(x.kfs, seen, e))
    && x.im.writes == FilesOf(x.kfs, x.im.finished)
    && (forall p :: p in x.im.pending ==> IsNewer(x.kfs, p.stamp))
  }

  /** Finished entries stay, with the image they have. */
  ghost predicate KeepsFinished<G>(x: ImagePart<G>, y: ImagePart<G>) {
    && x.im.finished <= y.im.finished && |x.kfs| <= |y.kfs|
    && (forall e :: e in x.im.finished && e.0 < |x.kfs| && e.1 in x.kfs[e.0].nearest ==>
          e.1 in y.kfs[e.0].nearest && y.kfs[e.0].nearest[e.1] == x.kfs[e.0].nearest[e.1])
  }

  // ----- Steps that do not touch image slots -----

  ghost predicate SameImages<G>(a: seq<Keyframe<G>>, b: seq<Keyframe<G>>) {
    |a| == |b| && forall i {:trigger a[i]} {:trigger b[i]} :: 0 <= i < |a| ==>
      a[i].stamp == b[i].stamp && a[i].nearest - {GNSS} == b[i].nearest - {GNSS}
  }

  lemma SameSlot<G>(a: seq<Keyframe<G>>, b: seq<Keyframe<G>>, i: nat, slot: string)
    requires SameImages(a, b) && i < |a| && slot != GNSS
    ensures (slot in a[i].nearest <==> slot in b[i].nearest)
    ensures slot in a[i].nearest ==> a[i].nearest[slot] == b[i].nearest[slot]
  {
    var u, v := a[i].nearest - {GNSS}, b[i].nearest - {GNSS};
    assert slot in u <==> slot in a[i].nearest;
    assert slot in v <==> slot in b[i].nearest;
  }

  lemma {:induction false} FilesOfSame<G>(a: seq<Keyframe<G>>, b: seq<Keyframe<G>>, es: seq<(nat, string)>)
    requires forall e :: e in es ==> e.0 < |a| && e.1 in a[e.0].nearest
    requires forall e :: e in es ==> e.0 < |b| && e.1 in b[e.0].nearest && b[e.0].nearest[e.1] == a[e.0].nearest[e.1]
    ensures FilesOf(a, es) == FilesOf(b, es)
  {
    if es != [] {
      assert es[|es| - 1] in es;
      FilesOfSame(a, b, es[..|es| - 1]);
    }
  }

  lemma InvariantOfSameImages<G>(x: ImagePart<G>, kfs: seq<Keyframe<G>>, seen: seq<Picture>)
    requires ImageInvariant(x, seen) && SameImages(kfs, x.kfs)
    ensures ImageInvariant(ImagePart(kfs, x.im), seen) && KeepsFinished(x, ImagePart(kfs, x.im))
  {
    hide FilesOf;
    forall i: nat, slot | i < |kfs| && slot != GNSS
      ensures slot in kfs[i].nearest <==> slot in x.kfs[i].nearest
      ensures slot in kfs[i].nearest ==> kfs[i].nearest[slot] == x.kfs[i].nearest[slot] {
      SameSlot(kfs, x.kfs, i, slot);
    }
    FilesOfSame(x.kfs, kfs, x.im.finished);
    forall e | e in x.im.finished ensures Final(kfs, seen, e) {
      assert Final(x.kfs, seen, e);
    }
  }

  // ----- Attaching images -----

  /** Picture `p` cannot replace a finished image: it is not closer, or another keyframe is. */
  ghost predicate Safe<G>(x: ImagePart<G>, p: Picture)
    requires forall e :: e in x.im.finished ==> e.0 < |x.kfs| && e.1 in x.kfs[e.0].nearest
  {
    forall e :: e in x.im.finished && e.1 == ImageSlot(p.sensor) ==>
      || x.kfs[e.0].nearest[e.1].dt <= Offset(x.kfs[e.0], p.stamp)
      || IsBetween(x.kfs, e.0, p.stamp)
  }

  /** Some keyframe is between keyframe `k` and `t`. */
  ghost predicate IsBetween<G>(kfs: seq<Keyframe<G>>, k: nat, t: int) {
    exists j :: k < j < |kfs| && kfs[j].stamp <= t
  }

  lemma SafeIsNotAttached<G>(maxOffset: int, x: ImagePart<G>, p: Picture)
    requires Increasing(x.kfs) && Accounted(x) && Safe(x, p)
    ensures
      var slot := ImageSlot(p.sensor);
      var c := Choose(x.kfs, p.stamp, slot, maxOffset);
      c.Attach? ==> (c.at, slot) !in x.im.finished
  {
    var slot := ImageSlot(p.sensor);
    var c := Choose(x.kfs, p.stamp, slot, maxOffset);
    ChooseMeans(x.kfs, p.stamp, slot, maxOffset);
    forall k, j | 0 <= k < j < |x.kfs| && x.kfs[j].stamp <= p.stamp
      ensures Offset(x.kfs[j], p.stamp) < Offset(x.kfs[k], p.stamp) {
    }
  }

  lemma AttachKeepsAccounted<G>(maxOffset: int, x: ImagePart<G>, p: Picture)
    requires Increasing(x.kfs) && Accounted(x) && Safe(x, p)
    ensures
      var y := AttachImage(maxOffset, x, p);
      && Accounted(y) && SameStamps(y.kfs, x.kfs) && KeepsFinished(x, y)
      && y.im.finished == x.im.finished && y.im.writes == x.im.writes
      && (forall q :: q in y.im.pending ==> q in x.im.pending || (q == p && IsNewer(x.kfs, p.stamp)))
  {
    var slot := ImageSlot(p.sensor);
    SafeIsNotAttached(maxOffset, x, p);
    ImageSlotIsNotGnss(p.sensor);
    ChooseMeans(x.kfs, p.stamp, slot, maxOffset);
    hide Choose, Replaced, Safe, Increasing;
  }

  lemma SafeStays<G>(x: ImagePart<G>, y: ImagePart<G>, p: Picture)
    requires Accounted(x) && Accounted(y) && Safe(x, p)
    requires KeepsFinished(x, y) && SameStamps(y.kfs, x.kfs) && y.im.finished == x.im.finished
    ensures Safe(y, p)
  {
    forall e | e in x.im.finished && e.1 == ImageSlot(p.sensor) && IsBetween(x.kfs, e.0, p.stamp)
      ensures IsBetween(y.kfs, e.0, p.stamp) {
      var j :| e.0 < j < |x.kfs| && x.kfs[j].stamp <= p.stamp;
      assert y.kfs[j].stamp <= p.stamp;
    }
  }

  /** Attaching pictures went from `x` to `y`. */
  ghost predicate AttachedFrom<G>(x: ImagePart<G>, y: ImagePart<G>, ps: seq<Picture>) {
    && Accounted(y) && SameStamps(y.kfs, x.kfs) && KeepsFinished(x, y)
    && y.im.finished == x.im.finished && y.im.writes == x.im.writes
    && (forall q :: q in y.im.pending ==> q in x.im.pending || (q in ps && IsNewer(x.kfs, q.stamp)))
  }

  lemma AttachStep<G>(maxOffset: int, x: ImagePart<G>, y: ImagePart<G>, ps: seq<Picture>, p: Picture)
    requires Increasing(x.kfs) && Accounted(x) && Safe(x, p) && AttachedFrom(x, y, ps)
    ensures AttachedFrom(x, AttachImage(maxOffset, y, p), ps + [p])
  {
    hide Accounted, Safe, AttachImage;
    SafeStays(x, y, p);
    AttachKeepsAccounted(maxOffset, y, p);
  }

  lemma {:induction false} AttachAllKeepsAccounted<G>(maxOffset: int, x: ImagePart<G>, ps: seq<Picture>)
    requires Increasing(x.kfs) && Accounted(x) && forall p :: p in ps ==> Safe(x, p)
    ensures AttachedFrom(x, AttachAllImages(maxOffset, x, ps), ps)
    decreases |ps|
  {
    if ps != [] {
      hide AttachImage, Accounted, Safe, AttachedFrom;
      var n := |ps| - 1;
      assert ps == ps[..n] + [ps[n]];
      AttachAllKeepsAccounted(maxOffset, x, ps[..n]);
      AttachStep(maxOffset, x, AttachAllImages(maxOffset, x, ps[..n]), ps[..n], ps[n]);
    }
  }

  lemma {:induction false} DropOldSubset(ps: seq<Picture>, maxOffset: int)
    ensures forall p :: p in DropOldImages(ps, maxOffset) ==> p in ps
  {
    if ps != [] && ps[|ps| - 1].stamp - ps[0].stamp > maxOffset + FRONT_END_LAG_MARGIN {
      DropOldSubset(ps[1..], maxOffset);
    }
  }

  lemma FinalStays<G>(x: ImagePart<G>, y: ImagePart<G>, seen: seq<Picture>, more: seq<Picture>, e: (nat, string))
    requires e in x.im.finished && e.0 < |x.kfs| && e.1 in x.kfs[e.0].nearest && Final(x.kfs, seen, e)
    requires KeepsFinished(x, y) && forall i :: 0 <= i < |x.kfs| ==> y.kfs[i].stamp == x.kfs[i].stamp
    requires seen <= more
    ensures Final(y.kfs, more, e)
  {
    var q :| q in seen && e.1 == ImageSlot(q.sensor) && x.kfs[e.0].stamp + x.kfs[e.0].nearest[e.1].dt < q.stamp;
    assert q in more;
  }

  /** Trying the pending images again, all of them safe. */
  lemma RetryKeepsInvariant<G>(maxOffset: int, x: ImagePart<G>, seen: seq<Picture>)
    requires Increasing(x.kfs) && Accounted(x) && x.im.writes == FilesOf(x.kfs, x.im.finished)
    requires forall e :: e in x.im.finished ==> Final(x.kfs, seen, e)
    requires forall p :: p in x.im.pending ==> Safe(x, p)
    ensures
      var y := RetryImagePart(maxOffset, x);
      ImageInvariant(y, seen) && KeepsFinished(x, y) && SameStamps(y.kfs, x.kfs)
  {
    hide AttachAllImages, DropOldImages, FilesOf, Final;
    var x0 := x.(im := x.im.(pending := []));
    AttachAllKeepsAccounted(maxOffset, x0, x.im.pending);
    var y0 := AttachAllImages(maxOffset, x0, x.im.pending);
    DropOldSubset(y0.im.pending, maxOffset);
    var y := RetryImagePart(maxOffset, x);
    FilesOfSame(x.kfs, y.kfs, x.im.finished);
    forall e | e in y.im.finished ensures Final(y.kfs, seen, e) {
      FinalStays(x, y, seen, seen, e);
    }
  }

  // ----- Finishing images -----

  function WithUnwritten<G>(x: ImagePart<G>, u: seq<(nat, string)>): ImagePart<G> {
    x.(im := x.im.(unwritten := u))
  }

  lemma FinishOneKeepsAccounted<G>(
    toFiles: bool, x: ImagePart<G>, e: (nat, string), kept: seq<(nat, string)>, rest: seq<(nat, string)>)
    requires Accounted(WithUnwritten(x, kept + [e] + rest)) && x.im.writes == FilesOf(x.kfs, x.im.finished)
    ensures HoldsPicture(x.kfs, e) && e !in x.im.finished
    ensures
      var y := FinishOne(toFiles, x, e);
      && Accounted(WithUnwritten(y, kept + rest)) && KeepsFinished(x, y) && SameStamps(y.kfs, x.kfs)
      && y.im.finished == x.im.finished + [e]
      && y.im.writes == FilesOf(y.kfs, y.im.finished)
      && e.1 in y.kfs[e.0].nearest && y.kfs[e.0].nearest[e.1].dt == x.kfs[e.0].nearest[e.1].dt
  {
    hide Replaced, FilesOf;
    var all := kept + [e] + rest;
    assert all[|kept|] == e;
    forall u ensures u in kept + rest <==> u in all && u != e {
      RemovedFrom(kept, e, rest, u);
    }
    RemoveKeepsNoDuplicates(kept, e, rest);
    var y := FinishOne(toFiles, x, e);
    FilesOfSame(x.kfs, y.kfs, x.im.finished);
    FilesOfAdd(y.kfs, x.im.finished, e);
  }

  lemma RemovedFrom<T>(a: seq<T>, e: T, b: seq<T>, u: T)
    requires NoDuplicates(a + [e] + b)
    ensures u in a + b <==> u in a + [e] + b && u != e
  {
    var all := a + [e] + b;
    assert all[|a|] == e;
    if i :| 0 <= i < |a| && a[i] == u {
      assert all[i] == u;
    }
    if i :| 0 <= i < |b| && b[i] == u {
      assert all[|a| + 1 + i] == u;
    }
  }

  lemma RemoveKeepsNoDuplicates<T>(a: seq<T>, e: T, b: seq<T>)
    requires NoDuplicates(a + [e] + b)
    ensures NoDuplicates(a + b)
  {
    var all, out := a + [e] + b, a + b;
    forall i, j | 0 <= i < j < |out| ensures out[i] != out[j] {
      assert out[i] == all[if i < |a| then i else i + 1] && out[j] == all[if j < |a| then j else j + 1];
    }
  }

  lemma FilesOfAdd<G>(kfs: seq<Keyframe<G>>, es: seq<(nat, string)>, e: (nat, string))
    requires forall d :: d in es + [e] ==> d.0 < |kfs| && d.1 in kfs[d.0].nearest
    ensures
      var o := kfs[e.0].nearest[e.1].obs;
      FilesOf(kfs, es + [e]) == FilesOf(kfs, es) + if o.FileAux? then [o.picture] else []
  {
    assert (es + [e])[..|es|] == es;
  }

  /** What finishing `e` requires of the newest image, if it is one that decides. */
  ghost predicate Finishable<G>(kfs: seq<Keyframe<G>>, newest: Option<(string, int)>, e: (nat, string))
    requires e.0 < |kfs| && e.1 in kfs[e.0].nearest
  {
    newest.Some? ==>
      e.0 + 1 < |kfs| && e.1 == ImageSlot(newest.value.0) && kfs[e.0].stamp + kfs[e.0].nearest[e.1].dt < newest.value.1
  }

  /** One entry: kept, or finished. */
  lemma FinishOrKeep<G>(
    toFiles: bool, y: ImagePart<G>, e: (nat, string), rest: seq<(nat, string)>, newest: Option<(string, int)>)
    requires Accounted(WithUnwritten(y, y.im.unwritten + [e] + rest)) && y.im.writes == FilesOf(y.kfs, y.im.finished)
    ensures HoldsPicture(y.kfs, e)
    ensures
      var z := if !MayBeReplaced(y.kfs, e, newest) then FinishOne(toFiles, y, e)
               else WithUnwritten(y, y.im.unwritten + [e]);
      && Accounted(WithUnwritten(z, z.im.unwritten + rest)) && KeepsFinished(y, z) && SameStamps(z.kfs, y.kfs)
      && z.im.pending == y.im.pending
      && z.im.writes == FilesOf(z.kfs, z.im.finished)
      && (newest.None? ==> z.im.unwritten == y.im.unwritten)
      && NewlyFinished(y, z, newest)
  {
    FinishOneKeepsAccounted(toFiles, y, e, y.im.unwritten, rest);
    hide FilesOf, Replaced, Externalized;
  }

  lemma KeepsFinishedTransitive<G>(x: ImagePart<G>, y: ImagePart<G>, z: ImagePart<G>)
    requires KeepsFinished(x, y) && KeepsFinished(y, z)
    ensures KeepsFinished(x, z)
  {
    forall e | e in x.im.finished && e.0 < |x.kfs| && e.1 in x.kfs[e.0].nearest
      ensures e.1 in z.kfs[e.0].nearest && z.kfs[e.0].nearest[e.1] == x.kfs[e.0].nearest[e.1] {
      assert e in y.im.finished;
    }
  }

  /** The entries finished since `x`, and why. */
  ghost predicate NewlyFinished<G>(x: ImagePart<G>, y: ImagePart<G>, newest: Option<(string, int)>) {
    forall e :: e in y.im.finished && e !in x.im.finished ==>
      e.0 < |y.kfs| && e.1 in y.kfs[e.0].nearest && Finishable(y.kfs, newest, e)
  }

  lemma NewlyFinishedTransitive<G>(x: ImagePart<G>, y: ImagePart<G>, z: ImagePart<G>, newest: Option<(string, int)>)
    requires KeepsFinished(y, z) && SameStamps(z.kfs, y.kfs)
    requires NewlyFinished(x, y, newest) && NewlyFinished(y, z, newest)
    ensures NewlyFinished(x, z, newest)
  {
  }

  /** The loop over `unwritten` went from `x` to `y`, with `rest` still to look at. */
  ghost predicate FinishedUpTo<G>(
    x: ImagePart<G>, y: ImagePart<G>, rest: seq<(nat, string)>, newest: Option<(string, int)>)
  {
    && Accounted(WithUnwritten(y, y.im.unwritten + rest))
    && y.im.writes == FilesOf(y.kfs, y.im.finished)
    && KeepsFinished(x, y) && SameStamps(y.kfs, x.kfs)
    && y.im.pending == x.im.pending
    && (newest.None? ==> y.im.unwritten == [])
    && NewlyFinished(x, y, newest)
  }

  function FinishNext<G>(
    toFiles: bool, y: ImagePart<G>, e: (nat, string), newest: Option<(string, int)>): ImagePart<G> {
    if HoldsPicture(y.kfs, e) && !MayBeReplaced(y.kfs, e, newest) then FinishOne(toFiles, y, e)
    else WithUnwritten(y, y.im.unwritten + [e])
  }

  lemma FinishStep<G>(
    toFiles: bool, x: ImagePart<G>, y: ImagePart<G>, e: (nat, string), rest: seq<(nat, string)>,
        newest: Option<(string, int)>)
    requires FinishedUpTo(x, y, [e] + rest, newest)
    ensures FinishedUpTo(x, FinishNext(toFiles, y, e, newest), rest, newest)
  {
    hide FilesOf, FinishOne, Accounted, MayBeReplaced, KeepsFinished, NewlyFinished;
    assert y.im.unwritten + ([e] + rest) == y.im.unwritten + [e] + rest;
    FinishOrKeep(toFiles, y, e, rest, newest);
    var z := FinishNext(toFiles, y, e, newest);
    KeepsFinishedTransitive(x, y, z);
    NewlyFinishedTransitive(x, y, z, newest);
  }

  lemma {:induction false} FinishEachKeepsAccounted<G>(
    toFiles: bool, x: ImagePart<G>, es: seq<(nat, string)>, rest: seq<(nat, string)>, newest: Option<(string, int)>)
    requires FinishedUpTo(x, x, es + rest, newest) && x.im.unwritten == []
    ensures FinishedUpTo(x, FinishEach(toFiles, x, es, newest), rest, newest)
    decreases |es|
  {
    hide FinishedUpTo;
    if es == [] {
      assert es + rest == rest;
    } else {
      var n := |es| - 1;
      assert es[..n] + ([es[n]] + rest) == es + rest;
      FinishEachKeepsAccounted(toFiles, x, es[..n], [es[n]] + rest, newest);
      FinishStep(toFiles, x, FinishEach(toFiles, x, es[..n], newest), es[n], rest, newest);
    }
  }

  // ----- A new image, a new keyframe, and the other steps -----

  /** The images of each camera come in time order. */
  ghost predicate InOrder(seen: seq<Picture>) {
    forall i, j :: 0 <= i < j < |seen| && seen[i].sensor == seen[j].sensor ==> seen[i].stamp <= seen[j].stamp
  }

  lemma ImageSlotInjective(a: string, b: string)
    requires ImageSlot(a) == ImageSlot(b)
    ensures a == b
  {
    assert a == ImageSlot(a)[6..] && b == ImageSlot(b)[6..];
  }

  /** A newer image of the camera of a finished one is farther from its keyframe. */
  lemma NewImageIsSafe<G>(x: ImagePart<G>, seen: seq<Picture>, p: Picture)
    requires ImageInvariant(x, seen) && InOrder(seen + [p])
    ensures Safe(x, p)
  {
    hide FilesOf;
    var all := seen + [p];
    assert all[|seen|] == p;
    forall e | e in x.im.finished && e.1 == ImageSlot(p.sensor)
      ensures x.kfs[e.0].nearest[e.1].dt <= Offset(x.kfs[e.0], p.stamp) {
      assert Final(x.kfs, seen, e);
      var q :| q in seen && e.1 == ImageSlot(q.sensor) && x.kfs[e.0].stamp + x.kfs[e.0].nearest[e.1].dt < q.stamp;
      ImageSlotInjective(q.sensor, p.sensor);
      var i :| 0 <= i < |seen| && seen[i] == q;
      assert all[i] == q;
    }
  }

  /** An image newer than the last keyframe of `old` is past every keyframe of a finished one. */
  lemma NewerImageIsSafe<G>(x: ImagePart<G>, y: ImagePart<G>, seen: seq<Picture>, p: Picture)
    requires ImageInvariant(x, seen) && IsNewer(x.kfs, p.stamp)
    requires x.kfs <= y.kfs && y.im.finished == x.im.finished
    ensures Safe(y, p)
  {
    hide FilesOf;
    forall e | e in y.im.finished ensures IsBetween(y.kfs, e.0, p.stamp) {
      assert Final(x.kfs, seen, e);
      var j := |x.kfs| - 1;
      assert e.0 < j < |y.kfs| && y.kfs[j] == x.kfs[j];
    }
  }

  lemma FinishKeepsInvariant<G>(toFiles: bool, x: ImagePart<G>, seen: seq<Picture>, p: Picture)
    requires ImageInvariant(x, seen)
    ensures
      var y := FinishPart(toFiles, x, Some((p.sensor, p.stamp)));
      ImageInvariant(y, seen + [p]) && KeepsFinished(x, y)
  {
    hide FilesOf, FinishEach;
    var newest := Some((p.sensor, p.stamp));
    var x0 := WithUnwritten(x, []);
    assert [] + x.im.unwritten == x.im.unwritten && x.im.unwritten + [] == x.im.unwritten;
    assert WithUnwritten(x0, x0.im.unwritten + (x.im.unwritten + [])) == x;
    FinishEachKeepsAccounted(toFiles, x0, x.im.unwritten, [], newest);
    var y := FinishEach(toFiles, x0, x.im.unwritten, newest);
    assert y.im.unwritten + [] == y.im.unwritten && WithUnwritten(y, y.im.unwritten) == y;
    forall e | e in y.im.finished ensures Final(y.kfs, seen + [p], e) {
      if e in x.im.finished {
        FinalStays(x, y, seen, seen + [p], e);
      } else {
        assert p in seen + [p];
      }
    }
  }

  lemma AddImageKeepsInvariant<G>(toFiles: bool, maxOffset: int, x: ImagePart<G>, seen: seq<Picture>, p: Picture)
    requires ImageInvariant(x, seen) && Increasing(x.kfs) && InOrder(seen + [p])
    ensures
      var x0 := x.(im := x.im.(pending := x.im.pending + [p]));
      var y := FinishPart(toFiles, RetryImagePart(maxOffset, x0), Some((p.sensor, p.stamp)));
      ImageInvariant(y, seen + [p]) && KeepsFinished(x, y)
  {
    hide FilesOf, FinishPart, RetryImagePart, Safe;
    var x0 := x.(im := x.im.(pending := x.im.pending + [p]));
    NewImageIsSafe(x, seen, p);
    assert Safe(x0, p) by { SafeStays(x, x0, p); }
    forall q | q in x0.im.pending ensures Safe(x0, q) {
      if q in x.im.pending {
        NewerImageIsSafe(x, x0, seen, q);
      }
    }
    RetryKeepsInvariant(maxOffset, x0, seen);
    var y0 := RetryImagePart(maxOffset, x0);
    hide ImageInvariant, KeepsFinished;
    FinishKeepsInvariant(toFiles, y0, seen, p);
    KeepsFinishedTransitive(x, y0, FinishPart(toFiles, y0, Some((p.sensor, p.stamp))));
  }

  lemma GnssKeepsImages<G>(maxOffset: int, x: GnssPart<G>, r: Reading)
    ensures SameImages(AttachGnss(maxOffset, x, r).kfs, x.kfs)
  {
    hide Choose, Replaced;
    var c := Choose(x.kfs, r.stamp, GNSS, maxOffset);
    if c.Attach? {
      var n := x.kfs[c.at].nearest;
      assert n[GNSS := Nearest(GnssAux(r), c.dt)] - {GNSS} == n - {GNSS};
    }
  }

  lemma {:induction false} AllGnssKeepsImages<G>(maxOffset: int, x: GnssPart<G>, rs: seq<Reading>)
    ensures SameImages(AttachAllGnss(maxOffset, x, rs).kfs, x.kfs)
    decreases |rs|
  {
    if rs != [] {
      hide AttachGnss;
      AllGnssKeepsImages(maxOffset, x, rs[..|rs| - 1]);
      GnssKeepsImages(maxOffset, AttachAllGnss(maxOffset, x, rs[..|rs| - 1]), rs[|rs| - 1]);
    }
  }

  lemma {:induction false} GravityKeepsImages<G>(rule: GravityRule, x: ImuPart<G>, t: int)
    ensures SameImages(ResolveGravity(rule, x, t).kfs, x.kfs)
    decreases |x.imu.pending|
  {
    var q := x.imu.pending;
    if q != [] && q[0] < |x.kfs| && x.kfs[q[0]].stamp < t {
      hide Replaced;
      var kf := WithGravity(rule, x.imu, x.kfs[q[0]]);
      assert kf.nearest == x.kfs[q[0]].nearest && kf.stamp == x.kfs[q[0]].stamp;
      GravityKeepsImages(rule, ImuPart(x.kfs[q[0] := kf], x.imu.(pending := q[1..])), t);
    }
  }

  /** A new keyframe, with readings `gnss` tried on it first, then the pending images. */
  lemma InsertKeepsInvariant<G>(
    maxOffset: int, x: ImagePart<G>, kf: Keyframe<G>, kfs: seq<Keyframe<G>>, seen: seq<Picture>)
    requires ImageInvariant(x, seen) && Increasing(x.kfs + [kf]) && kf.nearest == map[]
    requires SameImages(kfs, x.kfs + [kf])
    ensures
      var y := RetryImagePart(maxOffset, ImagePart(kfs, x.im));
      ImageInvariant(y, seen) && KeepsFinished(x, y)
  {
    hide FilesOf, RetryImagePart, Safe, Final;
    var x1, x2 := ImagePart(x.kfs + [kf], x.im), ImagePart(kfs, x.im);
    forall i: nat, slot | i < |kfs| && slot != GNSS
      ensures slot in kfs[i].nearest <==> slot in x1.kfs[i].nearest
      ensures slot in kfs[i].nearest ==> kfs[i].nearest[slot] == x1.kfs[i].nearest[slot] {
      SameSlot(kfs, x1.kfs, i, slot);
    }
    assert Accounted(x1) && KeepsFinished(x, x1);
    assert Accounted(x2) && KeepsFinished(x, x2) && KeepsFinished(x1, x2);
    FilesOfSame(x.kfs, kfs, x.im.finished);
    forall e | e in x.im.finished ensures Final(kfs, seen, e) {
      FinalStays(x, x2, seen, seen, e);
    }
    forall p | p in x.im.pending ensures Safe(x2, p) {
      NewerImageIsSafe(x, x1, seen, p);
      SafeStays(x1, x2, p);
    }
    RetryKeepsInvariant(maxOffset, x2, seen);
    hide KeepsFinished, Accounted;
    KeepsFinishedTransitive(x, x2, RetryImagePart(maxOffset, x2));
  }

  // ----- Whole runs -----

  function ImagesOf<G>(s: State<G>): ImagePart<G> {
    ImagePart(s.kfs, s.images)
  }

  /** The image an observation brings, if used. */
  function PictureOf<G(!new)>(cfg: Config<G>, o: Observation<G>): seq<Picture> {
    if UsesImage(cfg, o) then [o.picture] else []
  }

  /** The images received during a run, in order. */
  function Seen<G(!new)>(cfg: Config<G>, ops: seq<Op<G>>): seq<Picture> {
    if ops == [] then []
    else
      var op := ops[|ops| - 1];
      Seen(cfg, ops[..|ops| - 1]) + if op.Input? && op.ev.ObservationEvent? then PictureOf(cfg, op.ev.o) else []
  }

  lemma InsertKeepsImages<G(!new)>(
    cfg: Config<G>, s: State<G>, req: Request<G>, bias: GyroBias, rs: seq<Reading>, seen: seq<Picture>)
    requires GnssInvariant(cfg, s, rs) && ImageInvariant(ImagesOf(s), seen)
    ensures
      var t := Insert(cfg, s, req, bias);
      ImageInvariant(ImagesOf(t), seen) && KeepsFinished(ImagesOf(s), ImagesOf(t))
  {
    hide ImageInvariant, RetryImagePart, AttachAllGnss, NewKeyframe, HoldsClosest, WellSlotted;
    if Accepts(s, req) {
      hide KeepsFinished;
      var s1 := Logged(cfg, s, KeyframeEntry(req, bias));
      var kf := NewKeyframe(cfg, s1, req, bias);
      NewKeyframeGnss(cfg, s1, req, bias);
      var s2 := Appended(cfg, s1, req, bias);
      AllGnssKeepsImages(cfg.gnssMaxOffset, GnssPart(s2.kfs, [], s2.newData), s2.pendingGnss);
      InsertKeepsInvariant(cfg.imageMaxOffset, ImagesOf(s), kf, RetryGnss(cfg, s2).kfs, seen);
    }
  }

  lemma SameImagesKeep<G>(s: State<G>, t: State<G>, seen: seq<Picture>)
    requires ImageInvariant(ImagesOf(s), seen) && SameImages(t.kfs, s.kfs) && t.images == s.images
    ensures ImageInvariant(ImagesOf(t), seen) && KeepsFinished(ImagesOf(s), ImagesOf(t))
  {
    hide ImageInvariant, KeepsFinished;
    InvariantOfSameImages(ImagesOf(s), t.kfs, seen);
  }

  lemma ObserveKeepsImages<G(!new)>(
    cfg: Config<G>, s: State<G>, o: Observation<G>, rs: seq<Reading>, seen: seq<Picture>)
    requires GnssInvariant(cfg, s, rs) && ImageInvariant(ImagesOf(s), seen) && InOrder(seen + PictureOf(cfg, o))
    ensures
      var t := Observe(cfg, s, o);
      ImageInvariant(ImagesOf(t), seen + PictureOf(cfg, o)) && KeepsFinished(ImagesOf(s), ImagesOf(t))
  {
    hide ImageInvariant, KeepsFinished, RetryImagePart, FinishPart, AttachGnss, ResolveGravity, HoldsClosest,
        WellSlotted;
    if UsesImage(cfg, o) {
      AddImageKeepsInvariant(cfg.imageDir, cfg.imageMaxOffset, ImagesOf(s), seen, o.picture);
    } else {
      assert seen + [] == seen;
      if UsesGnss(cfg, o) {
        GnssKeepsImages(cfg.gnssMaxOffset, GnssPart(s.kfs, s.pendingGnss, s.newData), o.reading);
      } else if UsesGravity(cfg, o) {
        var imu := if s.imu.sensor == "" then s.imu.(sensor := o.sensor) else s.imu;
        var imu1 := imu.(samples := imu.samples + [Acceleration(o.stamp, o.acc.value)], sensorPose := o.sensorPose);
        GravityKeepsImages(RuleOf(cfg), ImuPart(s.kfs, imu1), o.stamp);
      }
      SameImagesKeep(s, Observe(cfg, s, o), seen);
    }
  }

  lemma CommitKeepsImages<G(!new)>(m: Motions<G>, s: State<G>, r: GraphResult<G>, seen: seq<Picture>)
    requires ImageInvariant(ImagesOf(s), seen)
    ensures ImageInvariant(ImagesOf(Commit(m, s, r)), seen) && KeepsFinished(ImagesOf(s), ImagesOf(Commit(m, s, r)))
  {
    hide ImageInvariant, KeepsFinished, CommittedPoses;
    SameImagesKeep(s, Commit(m, s, r), seen);
  }

  /** One operation of a run. */
  lemma OpKeepsImages<G(!new)>(
    cfg: Config<G>, opt: GraphInput<G> -> GraphResult<G>, c: Concurrent<G>, op: Op<G>, rs: seq<Reading>,
        seen: seq<Picture>)
    requires GnssInvariant(cfg, c.s, rs) && ImageInvariant(ImagesOf(c.s), seen)
    requires InOrder(seen + if op.Input? && op.ev.ObservationEvent? then PictureOf(cfg, op.ev.o) else [])
    ensures
      var s := Do(cfg, opt, c, op).s;
      var more := if op.Input? && op.ev.ObservationEvent? then PictureOf(cfg, op.ev.o) else [];
      && ImageInvariant(ImagesOf(s), seen + more)
      && KeepsFinished(ImagesOf(c.s), ImagesOf(s))
  {
    hide ImageInvariant, GnssInvariant, Insert, Observe, Commit, MergeAll, Snapshot;
    assert seen + [] == seen;
    match op
    case Input(KeyframeEvent(req, bias)) => InsertKeepsImages(cfg, c.s, req, bias, rs, seen);
    case Input(ObservationEvent(o)) => ObserveKeepsImages(cfg, c.s, o, rs, seen);
    case Input(LoopsEvent(edges)) =>
    case SolveBegins =>
    case SolveEnds =>
      if c.flight.Some? {
        CommitKeepsImages(cfg.m, c.s, c.flight.value, seen);
      }
  }

  lemma InOrderPrefix(a: seq<Picture>, b: seq<Picture>)
    requires InOrder(b) && a <= b
    ensures InOrder(a)
  {
  }

  /** In every reachable state, the attached images are those still replaceable and those
      finished, each once; the files queued are exactly those of finished images; and every
      finished image is closer to its keyframe than any later one can be. */
  lemma {:induction false} ImagesAccounted<G(!new)>(
    cfg: Config<G>, opt: GraphInput<G> -> GraphResult<G>, ops: seq<Op<G>>)
    requires InOrder(Seen(cfg, ops))
    ensures ImageInvariant(ImagesOf(StateAfter(cfg, opt, ops)), Seen(cfg, ops))
    decreases |ops|
  {
    if ops != [] {
      hide ImageInvariant, GnssInvariant, Do, InOrder;
      var n := |ops| - 1;
      InOrderPrefix(Seen(cfg, ops[..n]), Seen(cfg, ops));
      ImagesAccounted(cfg, opt, ops[..n]);
      OnlineRefinesOffline(cfg, opt, ops[..n]);
      var c := DoAll(cfg, opt, Concurrent(InitialState(cfg.m), None, 0), ops[..n]);
      OpKeepsImages(cfg, opt, c, ops[n], Received(cfg, ops[..n]), Seen(cfg, ops[..n]));
    }
  }

  lemma {:induction false} SeenGrows<G(!new)>(cfg: Config<G>, ops: seq<Op<G>>, n: nat)
    requires n <= |ops|
    ensures Seen(cfg, ops[..n]) <= Seen(cfg, ops)
  {
    if n < |ops| {
      SeenGrows(cfg, ops[..|ops| - 1], n);
      assert ops[..|ops| - 1][..n] == ops[..n];
    } else {
      assert ops[..n] == ops;
    }
  }

  /** Write-out is final: whatever happens after the first `n` operations of a run, an image
      finished by then is never replaced; by ImagesAccounted, it is not finished nor written
      a second time. */
  lemma {:induction false} WriteOutIsFinal<G(!new)>(
    cfg: Config<G>, opt: GraphInput<G> -> GraphResult<G>, ops: seq<Op<G>>, n: nat)
    requires InOrder(Seen(cfg, ops)) && n <= |ops|
    ensures
      KeepsFinished(ImagesOf(StateAfter(cfg, opt, ops[..n])), ImagesOf(StateAfter(cfg, opt, ops)))
    decreases |ops|
  {
    hide Do, GnssInvariant, ImageInvariant;
    if n == |ops| {
      assert ops[..n] == ops;
    } else {
      var k := |ops| - 1;
      SeenGrows(cfg, ops, k);
      InOrderPrefix(Seen(cfg, ops[..k]), Seen(cfg, ops));
      hide InOrder;
      assert ops[..k][..n] == ops[..n];
      WriteOutIsFinal(cfg, opt, ops[..k], n);
      ImagesAccounted(cfg, opt, ops[..k]);
      OnlineRefinesOffline(cfg, opt, ops[..k]);
      var c := DoAll(cfg, opt, Concurrent(InitialState(cfg.m), None, 0), ops[..k]);
      OpKeepsImages(cfg, opt, c, ops[k], Received(cfg, ops[..k]), Seen(cfg, ops[..k]));
      hide KeepsFinished;
      KeepsFinishedTransitive(ImagesOf(StateAfter(cfg, opt, ops[..n])), ImagesOf(c.s),
          ImagesOf(StateAfter(cfg, opt, ops)));
    }
  }

  /** The last step of the run finishes what is left: then every attached image has been
      finished exactly once, with one file for each that needed one. */
  lemma FinalizeFinishesAll<G(!new)>(cfg: Config<G>, s: State<G>, seen: seq<Picture>)
    requires ImageInvariant(ImagesOf(s), seen)
    ensures
      var t := FinishImages(cfg, s, None);
      && t.images.unwritten == [] && NoDuplicates(t.images.finished)
      && KeepsFinished(ImagesOf(s), ImagesOf(t)) && SameStamps(t.kfs, s.kfs)
      && (forall e :: e in t.images.finished ==> e.0 < |t.kfs| && e.1 in t.kfs[e.0].nearest)
      && (forall k: nat, slot {:trigger slot in t.kfs[k].nearest} ::
            k < |t.kfs| && slot in t.kfs[k].nearest && slot != GNSS ==> (k, slot) in t.images.finished)
      && t.images.writes == FilesOf(t.kfs, t.images.finished)
  {
    hide FilesOf, FinishEach, Final;
    var x := ImagesOf(s);
    var x0 := WithUnwritten(x, []);
    assert [] + x.im.unwritten == x.im.unwritten && x.im.unwritten + [] == x.im.unwritten;
    assert WithUnwritten(x0, x0.im.unwritten + (x.im.unwritten + [])) == x;
    FinishEachKeepsAccounted(cfg.imageDir, x0, x.im.unwritten, [], None);
    var y := FinishEach(cfg.imageDir, x0, x.im.unwritten, None);
    assert y.im.unwritten + [] == y.im.unwritten && WithUnwritten(y, y.im.unwritten) == y;
  }
}
