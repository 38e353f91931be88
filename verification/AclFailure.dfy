/**
 An update of an access control list that fails part of the way: what it has
 left in the file, and exactly when that is what was there before.
 */
module AclFailure {
  import opened Options
  import opened Acl

  /** The same entries, in whatever order. */
  ghost predicate SameEntries(a: seq<Entry>, b: seq<Entry>) {
    forall k :: Lookup(a, k) == Lookup(b, k)
  }

  ghost predicate Mentions(es: seq<Entry>, k: Key) {
    exists i :: 0 <= i < |es| && KeyFor(es[i]) == k
  }

  // ----- what the entries before the failure have done -----

  /** Without recalculation, each key has the permissions of its last entry. */
  lemma {:induction false} ModifiedSoFar(acl: seq<Entry>, es: seq<Entry>, k: Key)
    requires Valid(acl) && Update(acl, es, ModifyEntries, false).1
    ensures var r := Update(acl, es, ModifyEntries, false).0;
      Lookup(r, k) == if LastFor(es, k).Some? then LastFor(es, k) else Lookup(acl, k)
    decreases |es|
  {
    if es != [] {
      ValidUnique(acl);
      ModifiedLookup(acl, es[0], k);
      hide Valid; hide Lookup; hide Modified;
      ModifiedSoFar(Edited(acl, es[0], ModifyEntries, false), es[1..], k);
    }
  }

  lemma MentionsRest(es: seq<Entry>, k: Key)
    requires es != []
    ensures Mentions(es, k) <==> KeyFor(es[0]) == k || Mentions(es[1..], k)
  {
    if Mentions(es[1..], k) {
      var i :| 0 <= i < |es[1..]| && KeyFor(es[1..][i]) == k;
      assert KeyFor(es[i + 1]) == k;
    }
    if i :| 0 < i < |es| && KeyFor(es[i]) == k { assert es[1..][i - 1] == es[i]; }
  }

  /** Without recalculation, exactly the keys mentioned are gone. */
  lemma {:induction false} RemovedSoFar(acl: seq<Entry>, es: seq<Entry>, k: Key)
    requires Valid(acl) && Update(acl, es, RemoveEntries, false).1
    ensures Lookup(Update(acl, es, RemoveEntries, false).0, k) == if Mentions(es, k) then None else Lookup(acl, k)
    decreases |es|
  {
    if es != [] {
      ValidUnique(acl);
      RemovedLookup(acl, es[0], k);
      MentionsRest(es, k);
      hide Valid; hide Lookup; hide Removed; hide Mentions;
      RemovedSoFar(Edited(acl, es[0], RemoveEntries, false), es[1..], k);
    }
  }

  /** With recalculation, so are they but for the mask, which is what the group class allows. */
  lemma {:induction false} RemovedAndMasked(acl: seq<Entry>, es: seq<Entry>, k: Key)
    requires Valid(acl) && Update(acl, es, RemoveEntries, true).1
    ensures var r := Update(acl, es, RemoveEntries, true).0;
      && (es != [] ==> Lookup(r, MASK) == Some(Union(r)))
      && (k != MASK ==> Lookup(r, k) == if Mentions(es, k) then None else Lookup(acl, k))
    decreases |es|
  {
    if es != [] {
      var e, acl' := es[0], Removed(acl, es[0]);
      ValidUnique(acl);
      RemovedUnique(acl, e);
      RemovedLookup(acl, e, k);
      CalcMaskExact(acl', k);
      CalcMaskExact(acl', MASK);
      MentionsRest(es, k);
      hide Valid; hide Lookup; hide Removed; hide Mentions; hide CalcMask; hide Union;
      RemovedAndMasked(CalcMask(acl'), es[1..], k);
      assert es[1..] == [] ==> Update(acl, es, RemoveEntries, true).0 == CalcMask(acl');
    }
  }

  /** What the group class allows depends on the entries other than the mask alone. */
  lemma UnionAgrees(a: seq<Entry>, b: seq<Entry>)
    requires Unique(a) && Unique(b) && forall k :: k != MASK ==> Lookup(a, k) == Lookup(b, k)
    ensures Union(a) == Union(b)
  {
    forall p ensures p in Union(a) <==> p in Union(b) {
      UnionWithin(a, b, p);
      UnionWithin(b, a, p);
    }
  }

  lemma UnionWithin(a: seq<Entry>, b: seq<Entry>, p: Perm)
    requires Unique(a) && forall k :: k != MASK ==> Lookup(a, k) == Lookup(b, k)
    ensures p in Union(a) ==> p in Union(b)
  {
    UnionMeans(a, p);
    UnionMeans(b, p);
    hide Union;
    if i :| 0 <= i < |a| && GroupClass(a[i].tag) && p in a[i].perms {
      FindAt(a, i);
      var j := Find(b, KeyFor(a[i]));
      assert b[j].perms == a[i].perms && b[j].tag == a[i].tag;
    }
  }

  // ----- where an update fails -----

  function FirstNamed(es: seq<Entry>): (n: nat)
    ensures n <= |es| && (forall i :: 0 <= i < n ==> !Named(es[i].tag)) && (n < |es| ==> Named(es[n].tag))
  {
    if es == [] || Named(es[0].tag) then 0 else 1 + FirstNamed(es[1..])
  }

  function FirstBase(es: seq<Entry>): (n: nat)
    ensures n <= |es| && (forall i :: 0 <= i < n ==> !Base(es[i].tag)) && (n < |es| ==> Base(es[n].tag))
  {
    if es == [] || Base(es[0].tag) then 0 else 1 + FirstBase(es[1..])
  }

  /** The entry at `i` cannot be removed without recalculation: a base entry, or a mask while others are named. */
  ghost predicate Stuck(acl: seq<Entry>, es: seq<Entry>, i: nat)
    requires i < |es|
  {
    Base(es[i].tag) || (es[i].tag.Mask? && !Covers(es[..i], acl))
  }

  /** Only keys that are not in the list are mentioned. */
  ghost predicate Absent(acl: seq<Entry>, done: seq<Entry>) {
    forall i :: 0 <= i < |done| ==> !Has(acl, KeyFor(done[i]))
  }

  /** Only keys that are not in the list are mentioned, the mask apart. */
  ghost predicate NothingTaken(acl: seq<Entry>, done: seq<Entry>) {
    forall i :: 0 <= i < |done| && !done[i].tag.Mask? ==> !Has(acl, KeyFor(done[i]))
  }

  /**
   When a failing update leaves the file's entries as they were:
   modifying, every key whose last entry before the first named user or group
   gives other permissions than it had would be changed; removing, every key
   mentioned before the entry that cannot be removed is gone, and any removal
   with recalculation sets the mask.
   */
  ghost predicate Harmless(acl: seq<Entry>, es: seq<Entry>, op: Operation, recalcMask: bool) {
    match op
    case ModifyEntries =>
      forall k :: LastFor(es[..FirstNamed(es)], k).Some? ==> LastFor(es[..FirstNamed(es)], k) == Lookup(acl, k)
    case RemoveEntries =>
      if recalcMask then
        FirstBase(es) == 0 ||
        (Lookup(acl, MASK) == Some(Union(acl)) && NothingTaken(acl, es[..FirstBase(es)]))
      else
        exists i :: 0 <= i < |es| && Stuck(acl, es, i) && Absent(acl, es[..i])
  }

  lemma {:induction false} NoMaskYet(es: seq<Entry>)
    requires LastFor(es, MASK) == None
    ensures forall i :: 0 <= i < |es| ==> !es[i].tag.Mask?
  {
    if es != [] {
      NoMaskYet(es[1..]);
      assert forall i :: 0 < i < |es| ==> es[i] == es[1..][i - 1];
    }
  }

  /** Modifications without recalculation fail at the first named user or group. */
  lemma ModifyStops(acl: seq<Entry>, es: seq<Entry>, k: nat)
    requires Valid(acl) && k < |es| && Update(acl, es[..k], ModifyEntries, false).1
    requires !Valid(Edited(Update(acl, es[..k], ModifyEntries, false).0, es[k], ModifyEntries, false))
    ensures k == FirstNamed(es)
  {
    var done := es[..k];
    var r := Update(acl, done, ModifyEntries, false).0;
    FileStaysValid(acl, done, ModifyEntries, false);
    EditNoRecalc(r, es[k]);
    ModifyNoRecalc(acl, done);
    ModifiedSoFar(acl, done, MASK);
    LookupMeans(r, MASK);
    LookupMeans(acl, MASK);
    NoMaskYet(done);
    hide Valid; hide Update; hide Edited; hide Has;
    assert MaskFirst(done);
    forall i | 0 <= i < k ensures !Named(es[i].tag) {
      assert done[i] == es[i];
    }
  }

  lemma ModifyHarmless(acl: seq<Entry>, es: seq<Entry>, k: nat)
    requires Valid(acl) && k < |es| && k == FirstNamed(es) && Update(acl, es[..k], ModifyEntries, false).1
    ensures SameEntries(acl, Update(acl, es[..k], ModifyEntries, false).0) <==> Harmless(acl, es, ModifyEntries, false)
  {
    var r := Update(acl, es[..k], ModifyEntries, false).0;
    forall key ensures Lookup(r, key) == if LastFor(es[..k], key).Some? then LastFor(es[..k], key) else Lookup(acl, key) {
      ModifiedSoFar(acl, es[..k], key);
    }
    hide Valid; hide Update; hide Lookup; hide LastFor;
  }

  lemma RemoveStops(acl: seq<Entry>, es: seq<Entry>, k: nat)
    requires Valid(acl) && k < |es| && Update(acl, es[..k], RemoveEntries, true).1
    requires !Valid(Edited(Update(acl, es[..k], RemoveEntries, true).0, es[k], RemoveEntries, true))
    ensures k == FirstBase(es)
  {
    hide Valid; hide Update; hide Edited;
    FileStaysValid(acl, es[..k], RemoveEntries, true);
    RemoveOne(Update(acl, es[..k], RemoveEntries, true).0, es[k]);
    RemoveRecalc(acl, es[..k]);
    assert forall i :: 0 <= i < k ==> es[..k][i] == es[i];
  }

  lemma TakenMeans(acl: seq<Entry>, done: seq<Entry>, r: seq<Entry>)
    requires forall k :: k != MASK ==> Lookup(r, k) == if Mentions(done, k) then None else Lookup(acl, k)
    ensures NothingTaken(acl, done) <==> forall k :: k != MASK ==> Lookup(acl, k) == Lookup(r, k)
  {
    if NothingTaken(acl, done) {
      forall k | k != MASK ensures Lookup(acl, k) == Lookup(r, k) { LookupMeans(acl, k); }
    } else {
      var i :| 0 <= i < |done| && !done[i].tag.Mask? && Has(acl, KeyFor(done[i]));
      LookupMeans(acl, KeyFor(done[i]));
      assert Mentions(done, KeyFor(done[i]));
    }
  }

  lemma NothingDone(acl: seq<Entry>, op: Operation, recalcMask: bool)
    ensures Update(acl, [], op, recalcMask) == (acl, true)
  {
  }

  lemma RemoveHarmless(acl: seq<Entry>, es: seq<Entry>, k: nat)
    requires Valid(acl) && k < |es| && k == FirstBase(es) && Update(acl, es[..k], RemoveEntries, true).1
    ensures SameEntries(acl, Update(acl, es[..k], RemoveEntries, true).0) <==> Harmless(acl, es, RemoveEntries, true)
  {
    hide Valid; hide Update; hide Unique; hide Union; hide Lookup; hide Has; hide Mentions; hide NothingTaken; hide FirstBase;
    var done := es[..k];
    var r := Update(acl, done, RemoveEntries, true).0;
    if k == 0 {
      assert done == [];
      NothingDone(acl, RemoveEntries, true);
    } else {
      ValidUnique(acl);
      FileStaysValid(acl, done, RemoveEntries, true);
      ValidUnique(r);
      forall key | key != MASK ensures Lookup(r, key) == if Mentions(done, key) then None else Lookup(acl, key) {
        RemovedAndMasked(acl, done, key);
      }
      RemovedAndMasked(acl, done, MASK);
      TakenMeans(acl, done, r);
      if NothingTaken(acl, done) { UnionAgrees(acl, r); }
    }
  }

  /** A removal without recalculation that fails, fails at an entry that cannot be removed. */
  lemma RemoveSticks(acl: seq<Entry>, es: seq<Entry>, k: nat)
    requires Valid(acl) && k < |es| && Update(acl, es[..k], RemoveEntries, false).1
    requires !Valid(Edited(Update(acl, es[..k], RemoveEntries, false).0, es[k], RemoveEntries, false))
    ensures Stuck(acl, es, k) && forall i :: 0 <= i < k ==> !Stuck(acl, es, i)
  {
    hide Valid; hide Update; hide Edited; hide Covers; hide SomeNamed;
    var done := es[..k];
    var r := Update(acl, done, RemoveEntries, false).0;
    FileStaysValid(acl, done, RemoveEntries, false);
    RemoveOneNoRecalc(r, es[k]);
    RemoveNoRecalc(acl, done);
    NamedLeft(acl, done);
    forall i | 0 <= i < k ensures !Stuck(acl, es, i) {
      assert done[i] == es[i] && done[..i] == es[..i];
    }
  }

  lemma NamedLeft(acl: seq<Entry>, done: seq<Entry>)
    requires Valid(acl) && Update(acl, done, RemoveEntries, false).1
    ensures SomeNamed(Update(acl, done, RemoveEntries, false).0) <==> !Covers(done, acl)
  {
    var r := Update(acl, done, RemoveEntries, false).0;
    if i :| 0 <= i < |r| && Named(r[i].tag) {
      var k := KeyFor(r[i]);
      RemovedSoFar(acl, done, k);
      LookupMeans(r, k);
      LookupMeans(acl, k);
      var j := Find(acl, k);
      assert KeyFor(acl[j]) == k && !Mentions(done, k);
    }
    if j :| 0 <= j < |acl| && Named(acl[j].tag) && !Mentions(done, KeyFor(acl[j])) {
      RemovedSoFar(acl, done, KeyFor(acl[j]));
      LookupMeans(r, KeyFor(acl[j]));
      LookupMeans(acl, KeyFor(acl[j]));
      assert KeyFor(r[Find(r, KeyFor(acl[j]))]) == KeyFor(acl[j]);
    }
    assert Covers(done, acl) <==> forall j :: 0 <= j < |acl| && Named(acl[j].tag) ==> Mentions(done, KeyFor(acl[j]));
  }

  lemma FirstStuck(acl: seq<Entry>, es: seq<Entry>, k: nat)
    requires k < |es| && Stuck(acl, es, k) && forall i :: 0 <= i < k ==> !Stuck(acl, es, i)
    ensures Harmless(acl, es, RemoveEntries, false) <==> Absent(acl, es[..k])
  {
    hide Stuck; hide Has;
    if i :| 0 <= i < |es| && Stuck(acl, es, i) && Absent(acl, es[..i]) {
      assert forall j :: 0 <= j < k ==> es[..k][j] == es[..i][j];
    }
  }

  lemma AbsentMeans(acl: seq<Entry>, done: seq<Entry>, r: seq<Entry>)
    requires forall k :: Lookup(r, k) == if Mentions(done, k) then None else Lookup(acl, k)
    ensures SameEntries(acl, r) <==> Absent(acl, done)
  {
    hide Lookup; hide Has;
    if Absent(acl, done) {
      forall k ensures Lookup(acl, k) == Lookup(r, k) { LookupMeans(acl, k); }
    } else {
      var i :| 0 <= i < |done| && Has(acl, KeyFor(done[i]));
      LookupMeans(acl, KeyFor(done[i]));
      assert Mentions(done, KeyFor(done[i]));
    }
  }

  lemma StuckHarmless(acl: seq<Entry>, es: seq<Entry>, k: nat)
    requires Valid(acl) && k < |es| && Update(acl, es[..k], RemoveEntries, false).1
    requires Stuck(acl, es, k) && forall i :: 0 <= i < k ==> !Stuck(acl, es, i)
    ensures SameEntries(acl, Update(acl, es[..k], RemoveEntries, false).0) <==> Harmless(acl, es, RemoveEntries, false)
  {
    hide *;
    FirstStuck(acl, es, k);
    var r := Update(acl, es[..k], RemoveEntries, false).0;
    forall key ensures Lookup(r, key) == if Mentions(es[..k], key) then None else Lookup(acl, key) {
      RemovedSoFar(acl, es[..k], key);
    }
    AbsentMeans(acl, es[..k], r);
  }

  /** A failed update leaves the file's entries as they were if and only if it was harmless. */
  lemma FailureUnchanged(acl: seq<Entry>, es: seq<Entry>, op: Operation, recalcMask: bool)
    requires Valid(acl) && !Update(acl, es, op, recalcMask).1
    ensures SameEntries(acl, Update(acl, es, op, recalcMask).0) <==> Harmless(acl, es, op, recalcMask)
  {
    var k := FailedPrefix(acl, es, op, recalcMask);
    hide Valid; hide Update; hide Edited; hide SameEntries; hide Harmless;
    if op.ModifyEntries? {
      if recalcMask {
        ModifyAll(acl, es);
      } else {
        ModifyStops(acl, es, k);
        ModifyHarmless(acl, es, k);
      }
    } else if recalcMask {
      RemoveStops(acl, es, k);
      RemoveHarmless(acl, es, k);
    } else {
      RemoveSticks(acl, es, k);
      StuckHarmless(acl, es, k);
    }
  }

  // ----- it does happen -----

  const BASE_ONLY := [Entry(UserObj, 0, {Read, Write}), Entry(GroupObj, 0, {Read}), Entry(Other, 0, {})]

  /** Taking write permission from the owner and naming a user, without recalculation: the first is done, the second fails. */
  lemma HalfModified()
    ensures Valid(BASE_ONLY)
    ensures var (r, ok) := Update(BASE_ONLY, [Entry(UserObj, 0, {Read}), Entry(User, 1, {Read})], ModifyEntries, false);
      !ok && r == BASE_ONLY[0 := Entry(UserObj, 0, {Read})]
  {
    var es := [Entry(UserObj, 0, {Read}), Entry(User, 1, {Read})];
    assert Find(BASE_ONLY, KeyFor(es[0])) == 0;
    var r := Edited(BASE_ONLY, es[0], ModifyEntries, false);
    assert r == BASE_ONLY[0 := Entry(UserObj, 0, {Read})];
    BaseValid(BASE_ONLY);
    BaseValid(r);
    EditNoRecalc(r, es[1]);
    hide Valid; hide Edited;
    assert es[1..][0] == es[1];
  }

  lemma BaseValid(acl: seq<Entry>)
    requires |acl| == 3 && acl[0].tag.UserObj? && acl[1].tag.GroupObj? && acl[2].tag.Other?
    ensures Valid(acl) && !Has(acl, MASK)
  {
    assert Find(acl, Key(UserObj, 0)) == 0;
    FindAt(acl, 1);
    FindAt(acl, 2);
  }
}
