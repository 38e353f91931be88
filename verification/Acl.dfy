/**
 Modifying and removing entries of an access control list, with and without
 recalculation of the mask; the list's own operations and the rules for its
 validity are those of section 23 of IEEE P1003.1e draft 17.
 */
module Acl {
  import opened Options

  datatype Tag = UserObj | User | GroupObj | Group | Mask | Other

  datatype Perm = Read | Write | Execute

  datatype Entry = Entry(tag: Tag, qual: int, perms: set<Perm>)

  datatype Operation = ModifyEntries | RemoveEntries

  /** What identifies an entry; only named users and groups have a qualifier. */
  datatype Key = Key(tag: Tag, qual: int)

  predicate Named(tag: Tag) { tag.User? || tag.Group? }

  predicate Base(tag: Tag) { tag.UserObj? || tag.GroupObj? || tag.Other? }

  /** The tags whose permissions the mask limits. */
  predicate GroupClass(tag: Tag) { tag.User? || tag.GroupObj? || tag.Group? }

  function KeyFor(e: Entry): Key {
    Key(e.tag, if Named(e.tag) then e.qual else 0)
  }

  const MASK := Key(Mask, 0)

  // ----- the list and its operations -----

  function Find(acl: seq<Entry>, k: Key, from: nat := 0): (r: int)
    requires from <= |acl|
    ensures r == -1 || from <= r < |acl|
    ensures r >= 0 ==> KeyFor(acl[r]) == k && forall j :: from <= j < r ==> KeyFor(acl[j]) != k
    ensures r == -1 ==> forall j :: from <= j < |acl| ==> KeyFor(acl[j]) != k
    decreases |acl| - from
  {
    if from == |acl| then -1 else if KeyFor(acl[from]) == k then from else Find(acl, k, from + 1)
  }

  predicate Has(acl: seq<Entry>, k: Key) { Find(acl, k) >= 0 }

  function Lookup(acl: seq<Entry>, k: Key): Option<set<Perm>> {
    if Has(acl, k) then Some(acl[Find(acl, k)].perms) else None
  }

  function Modified(acl: seq<Entry>, e: Entry): seq<Entry> {
    var at := Find(acl, KeyFor(e));
    if at >= 0 then acl[at := acl[at].(perms := e.perms)] else acl + [Entry(e.tag, KeyFor(e).qual, e.perms)]
  }

  function Removed(acl: seq<Entry>, e: Entry): seq<Entry> {
    var at := Find(acl, KeyFor(e));
    if at >= 0 then acl[..at] + acl[at + 1..] else acl
  }

  function Union(acl: seq<Entry>): set<Perm> {
    if acl == [] then {}
    else Union(acl[..|acl| - 1]) + if GroupClass(acl[|acl| - 1].tag) then acl[|acl| - 1].perms else {}
  }

  /** The union is whatever some entry of the group class allows. */
  lemma {:induction false} UnionMeans(acl: seq<Entry>, p: Perm)
    ensures p in Union(acl) <==> exists i :: 0 <= i < |acl| && acl[i].tag in {User, GroupObj, Group} && p in acl[i].perms
  {
    if acl != [] {
      var front := acl[..|acl| - 1];
      UnionMeans(front, p);
      assert forall i :: 0 <= i < |front| ==> front[i] == acl[i];
    }
  }

  /** acl_calc_mask(): the mask is created if need be. */
  function CalcMask(acl: seq<Entry>): seq<Entry> {
    Modified(acl, Entry(Mask, 0, Union(acl)))
  }

  ghost predicate Unique(acl: seq<Entry>) {
    forall i, j :: 0 <= i < j < |acl| ==> KeyFor(acl[i]) != KeyFor(acl[j])
  }

  predicate SomeNamed(acl: seq<Entry>) {
    exists i :: 0 <= i < |acl| && Named(acl[i].tag)
  }

  predicate HasBase(acl: seq<Entry>) {
    Has(acl, Key(UserObj, 0)) && Has(acl, Key(GroupObj, 0)) && Has(acl, Key(Other, 0))
  }

  /** acl_valid(): all keys unique, the three base entries there, and a mask if a user or group is named. */
  predicate Valid(acl: seq<Entry>) {
    && (forall i, j :: 0 <= i < j < |acl| ==> KeyFor(acl[i]) != KeyFor(acl[j]))
    && HasBase(acl)
    && (SomeNamed(acl) ==> Has(acl, MASK))
  }

  // ----- updating -----

  /** The file's list after one entry of the update, unless that is not valid. */
  function Edited(acl: seq<Entry>, e: Entry, op: Operation, recalcMask: bool): seq<Entry> {
    var acl' := if op.RemoveEntries? then Removed(acl, e) else Modified(acl, e);
    if recalcMask then CalcMask(acl') else acl'
  }

  /** The file's list after the update, and whether the program got through it. */
  function Update(acl: seq<Entry>, es: seq<Entry>, op: Operation, recalcMask: bool): (seq<Entry>, bool)
    decreases |es|
  {
    if es == [] then (acl, true)
    else
      var acl' := Edited(acl, es[0], op, recalcMask);
      if Valid(acl') then Update(acl', es[1..], op, recalcMask) else (acl, false)
  }

  method FindEntry(acl: seq<Entry>, tag: Tag, qual: int) returns (at: int)
    ensures at == Find(acl, KeyFor(Entry(tag, qual, {})))
    ensures forall j :: 0 <= j < (if at == -1 then |acl| else at) ==> acl[j].tag != tag || (tag in {User, Group} && acl[j].qual != qual)
    ensures at != -1 ==> 0 <= at < |acl| && acl[at].tag == tag && (tag in {User, Group} ==> acl[at].qual == qual)
  {
    for i := 0 to |acl|
      invariant forall j :: 0 <= j < i ==> KeyFor(acl[j]) != KeyFor(Entry(tag, qual, {}))
    {
      if tag == acl[i].tag {
        if tag.User? || tag.Group? {
          if qual == acl[i].qual { return i; }
        } else {
          return i;
        }
      }
    }
    return -1;
  }

  method SetPerms(e: Entry, perms: set<Perm>) returns (r: Entry)
    ensures r == Entry(e.tag, e.qual, perms)
  {
    r := e.(perms := {});
    if Read in perms { r := r.(perms := r.perms + {Read}); }
    if Write in perms { r := r.(perms := r.perms + {Write}); }
    if Execute in perms { r := r.(perms := r.perms + {Execute}); }
    forall p: Perm ensures p in r.perms <==> p in perms {
      match p { case Read => case Write => case Execute => }
    }
  }

  class File {
    var acl: seq<Entry>

    constructor (entries: seq<Entry>)
      ensures acl == entries
    {
      acl := entries;
    }

    /** The file is written after every entry of the update; an error ends the program. */
    method UpdateACL(aclist: seq<Entry>, operation: Operation, recalcMask: bool) returns (ok: bool)
      modifies this
      ensures (acl, ok) == Update(old(acl), aclist, operation, recalcMask)
    {
      hide Valid; hide Edited; hide CalcMask;
      var edited := acl;
      assert aclist[0..] == aclist;
      for en := 0 to |aclist|
        invariant edited == acl && Update(old(acl), aclist, operation, recalcMask) == Update(acl, aclist[en..], operation, recalcMask)
      {
        assert aclist[en..][0] == aclist[en] && aclist[en..][1..] == aclist[en + 1..];
        edited := Edit(edited, aclist[en], operation, recalcMask);
        if !Valid(edited) { return false; }
        acl := edited;
      }
      return true;
    }
  }

  /** What one entry of the update does to the working copy. */
  method ModifyEntry(acl: seq<Entry>, at: int, e: Entry) returns (edited: seq<Entry>)
    requires at == Find(acl, KeyFor(e))
    ensures edited == Modified(acl, e)
  {
    edited := acl;
    var entry := at;
    if entry == -1 {
      entry := |edited|;
      edited := edited + [Entry(e.tag, if Named(e.tag) then e.qual else 0, {})];
    }
    var changed := SetPerms(edited[entry], e.perms);
    edited := edited[entry := changed];
    if at == -1 {
      assert edited == acl + [changed];
    }
  }

  method RemoveEntry(acl: seq<Entry>, at: int, e: Entry) returns (edited: seq<Entry>)
    requires at == Find(acl, KeyFor(e))
    ensures edited == Removed(acl, e)
  {
    edited := if at != -1 then acl[..at] + acl[at + 1..] else acl;
  }

  method Edit(acl: seq<Entry>, e: Entry, operation: Operation, recalcMask: bool) returns (edited: seq<Entry>)
    ensures edited == Edited(acl, e, operation, recalcMask)
  {
    hide Modified; hide Removed; hide CalcMask; hide Find;
    edited := acl;
    var at := FindEntry(edited, e.tag, e.qual);
    assert KeyFor(Entry(e.tag, e.qual, {})) == KeyFor(e);
    if operation == RemoveEntries {
      edited := RemoveEntry(edited, at, e);
    } else {
      edited := ModifyEntry(edited, at, e);
    }
    if recalcMask { edited := CalcMask(edited); }
  }

  // ----- one entry -----

  lemma FindAt(acl: seq<Entry>, i: nat)
    requires Unique(acl) && i < |acl|
    ensures Find(acl, KeyFor(acl[i])) == i && Lookup(acl, KeyFor(acl[i])) == Some(acl[i].perms)
  {
  }

  lemma FindNone(acl: seq<Entry>, k: Key)
    requires forall i :: 0 <= i < |acl| ==> KeyFor(acl[i]) != k
    ensures Lookup(acl, k) == None
  {
  }

  lemma ModifiedKeys(acl: seq<Entry>, e: Entry)
    requires Unique(acl)
    ensures Unique(Modified(acl, e)) && Has(Modified(acl, e), KeyFor(e))
    ensures forall i :: 0 <= i < |acl| ==> KeyFor(Modified(acl, e)[i]) == KeyFor(acl[i])
    ensures SomeNamed(Modified(acl, e)) <==> SomeNamed(acl) || Named(e.tag)
  {
    var acl' := Modified(acl, e);
    var at := Find(acl, KeyFor(e));
    if at >= 0 {
      assert acl'[at].tag == e.tag;
      if SomeNamed(acl) {
        var i :| 0 <= i < |acl| && Named(acl[i].tag);
        assert Named(acl'[i].tag);
      }
    } else {
      assert acl'[|acl|].tag == e.tag;
      if SomeNamed(acl) {
        var i :| 0 <= i < |acl| && Named(acl[i].tag);
        assert Named(acl'[i].tag);
      }
    }
  }

  lemma ModifiedLookup(acl: seq<Entry>, e: Entry, k: Key)
    requires Unique(acl)
    ensures Lookup(Modified(acl, e), k) == if k == KeyFor(e) then Some(e.perms) else Lookup(acl, k)
  {
    var acl' := Modified(acl, e);
    ModifiedKeys(acl, e);
    var at := Find(acl', k);
    if 0 <= at < |acl| { FindAt(acl, at); }
  }

  lemma RemovedAt(acl: seq<Entry>, e: Entry, i: nat)
    requires i < |acl|
    ensures var at := Find(acl, KeyFor(e)); i != at ==>
      var j := if at == -1 || i < at then i else i - 1; j < |Removed(acl, e)| && Removed(acl, e)[j] == acl[i]
  {
  }

  lemma RemovedFrom(acl: seq<Entry>, e: Entry, j: nat)
    requires j < |Removed(acl, e)|
    ensures var at := Find(acl, KeyFor(e)); var i := if at == -1 || j < at then j else j + 1;
      i < |acl| && i != at && Removed(acl, e)[j] == acl[i]
  {
  }

  lemma RemovedUnique(acl: seq<Entry>, e: Entry)
    requires Unique(acl)
    ensures Unique(Removed(acl, e))
  {
  }

  lemma RemovedLookup(acl: seq<Entry>, e: Entry, k: Key)
    requires Unique(acl)
    ensures Lookup(Removed(acl, e), k) == if k == KeyFor(e) then None else Lookup(acl, k)
  {
    RemovedUnique(acl, e);
    hide Removed; hide Find; hide Unique;
    var acl' := Removed(acl, e);
    var i, at := Find(acl, k), Find(acl, KeyFor(e));
    if i >= 0 && i != at {
      RemovedAt(acl, e, i);
      FindAt(acl', if at == -1 || i < at then i else i - 1);
    } else {
      forall j | 0 <= j < |acl'| ensures KeyFor(acl'[j]) != k { RemovedFrom(acl, e, j); }
      FindNone(acl', k);
    }
  }

  /** After a removal an entry is named only if another one was. */
  lemma RemovedNamed(acl: seq<Entry>, e: Entry)
    requires Unique(acl)
    ensures SomeNamed(Removed(acl, e)) <==> exists i :: 0 <= i < |acl| && Named(acl[i].tag) && KeyFor(acl[i]) != KeyFor(e)
  {
    hide Removed; hide Find;
    var acl' := Removed(acl, e);
    if i :| 0 <= i < |acl| && Named(acl[i].tag) && KeyFor(acl[i]) != KeyFor(e) { RemovedAt(acl, e, i); }
    if j :| 0 <= j < |acl'| && Named(acl'[j].tag) { RemovedFrom(acl, e, j); }
  }

  /** The same entries, apart from what they allow. */
  ghost predicate SameKeys(a: seq<Entry>, b: seq<Entry>) {
    |a| == |b| && forall i :: 0 <= i < |a| ==> a[i].tag == b[i].tag && a[i].qual == b[i].qual
  }

  lemma {:induction false} UnionSame(a: seq<Entry>, b: seq<Entry>)
    requires SameKeys(a, b) && forall i :: 0 <= i < |a| && !a[i].tag.Mask? ==> a[i] == b[i]
    ensures Union(a) == Union(b)
  {
    if a != [] { UnionSame(a[..|a| - 1], b[..|b| - 1]); }
  }

  /** Changing the mask does not change what it is calculated from. */
  lemma MaskOutside(acl: seq<Entry>, perms: set<Perm>)
    ensures Union(Modified(acl, Entry(Mask, 0, perms))) == Union(acl)
  {
    var acl' := Modified(acl, Entry(Mask, 0, perms));
    if Find(acl, MASK) >= 0 {
      assert SameKeys(acl', acl);
      UnionSame(acl', acl);
    } else {
      assert acl'[..|acl|] == acl && !GroupClass(acl'[|acl|].tag);
    }
  }

  /** Recalculation leaves a mask that allows what the group class allows, and nothing else changes. */
  lemma CalcMaskExact(acl: seq<Entry>, k: Key)
    requires Unique(acl)
    ensures Unique(CalcMask(acl)) && Union(CalcMask(acl)) == Union(acl) && (SomeNamed(CalcMask(acl)) <==> SomeNamed(acl))
    ensures Lookup(CalcMask(acl), k) == if k == MASK then Some(Union(acl)) else Lookup(acl, k)
  {
    var mask := Entry(Mask, 0, Union(acl));
    ModifiedKeys(acl, mask);
    ModifiedLookup(acl, mask, k);
    MaskOutside(acl, Union(acl));
  }

  ghost predicate BaseLookups(acl: seq<Entry>) {
    Lookup(acl, Key(UserObj, 0)).Some? && Lookup(acl, Key(GroupObj, 0)).Some? && Lookup(acl, Key(Other, 0)).Some?
  }

  lemma ValidMeans(acl: seq<Entry>)
    ensures Valid(acl) <==> Unique(acl) && BaseLookups(acl) && (SomeNamed(acl) ==> Lookup(acl, MASK).Some?)
  {
  }

  // ----- modifying with recalculation -----

  lemma ModifyOne(acl: seq<Entry>, e: Entry)
    requires Valid(acl)
    ensures var r := Edited(acl, e, ModifyEntries, true);
      && Valid(r) && Lookup(r, MASK) == Some(Union(r))
      && forall k :: k != MASK ==> Lookup(r, k) == if k == KeyFor(e) then Some(e.perms) else Lookup(acl, k)
  {
    hide Modified; hide CalcMask; hide Lookup; hide Valid; hide Union;
    ValidMeans(acl);
    ModifiedKeys(acl, e);
    var acl' := Modified(acl, e);
    forall k ensures Lookup(CalcMask(acl'), k)
        == if k == MASK then Some(Union(acl')) else if k == KeyFor(e) then Some(e.perms) else Lookup(acl, k)
    {
      ModifiedLookup(acl, e, k);
      CalcMaskExact(acl', k);
    }
    CalcMaskExact(acl', MASK);
    ValidMeans(CalcMask(acl'));
  }

  /** The permissions in the last entry of the update for `k`. */
  function LastFor(es: seq<Entry>, k: Key): Option<set<Perm>> {
    if es == [] then None
    else if LastFor(es[1..], k).Some? then LastFor(es[1..], k)
    else if KeyFor(es[0]) == k then Some(es[0].perms) else None
  }

  /**
   With recalculation, any list of modifications of a valid list goes through:
   the result is valid, the last entry for each key other than the mask wins,
   and the mask is the union of the group class.
   */
  lemma {:induction false} ModifyAll(acl: seq<Entry>, es: seq<Entry>)
    requires Valid(acl)
    ensures var (r, ok) := Update(acl, es, ModifyEntries, true);
      && ok && Valid(r) && (es != [] ==> Lookup(r, MASK) == Some(Union(r)))
      && forall k :: k != MASK ==> Lookup(r, k) == if LastFor(es, k).Some? then LastFor(es, k) else Lookup(acl, k)
    decreases |es|
  {
    hide Valid; hide Lookup; hide Edited; hide Union;
    if es != [] {
      ModifyOne(acl, es[0]);
      ModifyAll(Edited(acl, es[0], ModifyEntries, true), es[1..]);
    }
  }

  /** When nothing has to be created, only permissions change. */
  lemma {:induction false} NothingCreated(acl: seq<Entry>, es: seq<Entry>)
    requires Valid(acl) && Has(acl, MASK) && forall i :: 0 <= i < |es| ==> Has(acl, KeyFor(es[i]))
    ensures SameKeys(acl, Update(acl, es, ModifyEntries, true).0)
    decreases |es|
  {
    hide Union; hide Valid;
    if es != [] {
      ModifyOne(acl, es[0]);
      var r := Edited(acl, es[0], ModifyEntries, true);
      var acl' := Modified(acl, es[0]);
      assert SameKeys(acl, acl');
      SameHas(acl, acl', MASK);
      assert SameKeys(acl', r);
      forall i | 0 <= i < |es[1..]| ensures Has(r, KeyFor(es[1..][i])) {
        assert es[1..][i] == es[i + 1];
        SameHas(acl, r, KeyFor(es[i + 1]));
      }
      SameHas(acl, r, MASK);
      NothingCreated(r, es[1..]);
    }
  }

  lemma SameHas(a: seq<Entry>, b: seq<Entry>, k: Key)
    requires SameKeys(a, b)
    ensures Has(a, k) <==> Has(b, k)
  {
  }

  lemma {:induction false} LastForKnown(es: seq<Entry>, i: nat)
    requires i < |es|
    ensures LastFor(es, KeyFor(es[i])).Some?
  {
    if i > 0 { LastForKnown(es[1..], i - 1); }
  }

  /** Applying the same modifications once more changes nothing. */
  lemma ModifyIdempotent(acl: seq<Entry>, es: seq<Entry>)
    requires Valid(acl)
    ensures var r := Update(acl, es, ModifyEntries, true).0; Update(r, es, ModifyEntries, true) == (r, true)
  {
    hide Update; hide Union; hide Valid; hide Lookup;
    if es == [] {
      UpdateNone(acl);
    } else {
      var r := Update(acl, es, ModifyEntries, true).0;
      var r2 := Update(r, es, ModifyEntries, true).0;
      ModifyAll(acl, es);
      ModifyAll(r, es);
      LookupMeans(r, MASK);
      forall i | 0 <= i < |es| ensures Has(r, KeyFor(es[i])) {
        LastForKnown(es, i);
        LookupMeans(r, KeyFor(es[i]));
      }
      NothingCreated(r, es);
      ValidUnique(r);
      ValidUnique(r2);
      EqualLists(r, r2);
    }
  }

  lemma UpdateNone(acl: seq<Entry>)
    ensures Update(acl, [], ModifyEntries, true) == (acl, true)
  {
  }

  lemma LookupMeans(acl: seq<Entry>, k: Key)
    ensures Lookup(acl, k).Some? <==> Has(acl, k)
  {
  }

  lemma ValidUnique(acl: seq<Entry>)
    requires Valid(acl)
    ensures Unique(acl)
  {
  }

  lemma EqualLists(a: seq<Entry>, b: seq<Entry>)
    requires Unique(a) && Unique(b) && SameKeys(a, b) && Lookup(a, MASK) == Some(Union(a)) && Lookup(b, MASK) == Some(Union(b))
    requires forall k :: k != MASK ==> Lookup(a, k) == Lookup(b, k)
    ensures a == b
  {
    forall i | 0 <= i < |a| && !a[i].tag.Mask? ensures a[i] == b[i] {
      FindAt(a, i);
      FindAt(b, i);
    }
    UnionSame(a, b);
    forall i | 0 <= i < |a| && a[i].tag.Mask? ensures a[i] == b[i] {
      FindAt(a, i);
      FindAt(b, i);
    }
  }

  // ----- modifying without recalculation -----

  lemma EditNoRecalc(acl: seq<Entry>, e: Entry)
    requires Valid(acl)
    ensures var r := Edited(acl, e, ModifyEntries, false);
      && (Has(r, MASK) <==> Has(acl, MASK) || e.tag.Mask?)
      && (Valid(r) <==> Has(acl, MASK) || !Named(e.tag))
  {
    hide Modified; hide Lookup; hide Valid;
    ValidMeans(acl);
    ModifiedKeys(acl, e);
    var r := Modified(acl, e);
    forall k ensures Lookup(r, k) == if k == KeyFor(e) then Some(e.perms) else Lookup(acl, k) { ModifiedLookup(acl, e, k); }
    ValidMeans(r);
    LookupMeans(acl, MASK);
    LookupMeans(r, MASK);
  }

  /** A mask entry comes before every entry for a named user or group. */
  ghost predicate MaskFirst(es: seq<Entry>) {
    forall i :: 0 <= i < |es| && Named(es[i].tag) ==> exists j :: 0 <= j < i && es[j].tag.Mask?
  }

  /**
   Without recalculation, modifications go through if and only if the list has
   a mask already, or is given one before any named user or group.
   */
  lemma {:induction false} ModifyNoRecalc(acl: seq<Entry>, es: seq<Entry>)
    requires Valid(acl)
    ensures Update(acl, es, ModifyEntries, false).1 <==> Has(acl, MASK) || MaskFirst(es)
    decreases |es|
  {
    hide Valid; hide Edited; hide Has;
    if es != [] {
      EditNoRecalc(acl, es[0]);
      var rest := es[1..];
      assert forall i :: 0 <= i < |rest| ==> rest[i] == es[i + 1];
      if Has(acl, MASK) || !Named(es[0].tag) {
        ModifyNoRecalc(Edited(acl, es[0], ModifyEntries, false), rest);
        if !es[0].tag.Mask? && !Named(es[0].tag) { MaskFirstRest(es); }
      }
    }
  }

  lemma MaskFirstRest(es: seq<Entry>)
    requires es != [] && !es[0].tag.Mask? && !Named(es[0].tag)
    ensures MaskFirst(es) <==> MaskFirst(es[1..])
  {
  }

  // ----- removing -----

  lemma RemoveOne(acl: seq<Entry>, e: Entry)
    requires Valid(acl)
    ensures Valid(Edited(acl, e, RemoveEntries, true)) <==> !Base(e.tag)
  {
    hide Removed; hide CalcMask; hide Lookup; hide Valid; hide Union;
    ValidMeans(acl);
    RemovedUnique(acl, e);
    var acl' := Removed(acl, e);
    forall k ensures Lookup(CalcMask(acl'), k) == if k == MASK then Some(Union(acl')) else if k == KeyFor(e) then None else Lookup(acl, k) {
      RemovedLookup(acl, e, k);
      CalcMaskExact(acl', k);
    }
    CalcMaskExact(acl', MASK);
    ValidMeans(CalcMask(acl'));
  }

  /** With recalculation, removals go through if and only if none is of a base entry. */
  lemma {:induction false} RemoveRecalc(acl: seq<Entry>, es: seq<Entry>)
    requires Valid(acl)
    ensures Update(acl, es, RemoveEntries, true).1 <==> forall i :: 0 <= i < |es| ==> !Base(es[i].tag)
    decreases |es|
  {
    hide Valid; hide Edited;
    if es != [] {
      RemoveOne(acl, es[0]);
      var rest := es[1..];
      assert forall i :: 0 <= i < |rest| ==> rest[i] == es[i + 1];
      if !Base(es[0].tag) {
        RemoveRecalc(Edited(acl, es[0], RemoveEntries, true), rest);
        if forall i :: 0 <= i < |rest| ==> !Base(rest[i].tag) {
          forall i | 0 <= i < |es| ensures !Base(es[i].tag) { assert i > 0 ==> es[i] == rest[i - 1]; }
        }
      }
    }
  }

  /** Every named entry has its key among those of `es`. */
  ghost predicate Covers(es: seq<Entry>, acl: seq<Entry>) {
    forall i :: 0 <= i < |acl| && Named(acl[i].tag) ==> exists j :: 0 <= j < |es| && KeyFor(es[j]) == KeyFor(acl[i])
  }

  /** A removal that can be made without recalculating: no base entry, and no mask while entries are named. */
  ghost predicate Removable(acl: seq<Entry>, es: seq<Entry>) {
    forall i :: 0 <= i < |es| ==> !Base(es[i].tag) && (es[i].tag.Mask? ==> Covers(es[..i], acl))
  }

  lemma RemoveOneNoRecalc(acl: seq<Entry>, e: Entry)
    requires Valid(acl)
    ensures Valid(Edited(acl, e, RemoveEntries, false)) <==> !Base(e.tag) && (e.tag.Mask? ==> !SomeNamed(acl))
  {
    hide Removed; hide Lookup; hide Valid;
    ValidMeans(acl);
    RemovedUnique(acl, e);
    RemovedNamed(acl, e);
    var r := Removed(acl, e);
    forall k ensures Lookup(r, k) == if k == KeyFor(e) then None else Lookup(acl, k) { RemovedLookup(acl, e, k); }
    ValidMeans(r);
  }

  lemma CoversRest(acl: seq<Entry>, es: seq<Entry>)
    requires Unique(acl) && es != []
    ensures Covers(es, acl) <==> Covers(es[1..], Removed(acl, es[0]))
  {
    hide Removed;
    var rest, acl' := es[1..], Removed(acl, es[0]);
    if Covers(es, acl) {
      forall i | 0 <= i < |acl'| && Named(acl'[i].tag) ensures exists j :: 0 <= j < |rest| && KeyFor(rest[j]) == KeyFor(acl'[i]) {
        RemovedFrom(acl, es[0], i);
        var at := Find(acl, KeyFor(es[0]));
        var before := if at == -1 || i < at then i else i + 1;
        var j :| 0 <= j < |es| && KeyFor(es[j]) == KeyFor(acl[before]);
        assert j != 0;
        assert rest[j - 1] == es[j];
      }
    }
    if Covers(rest, acl') {
      forall i | 0 <= i < |acl| && Named(acl[i].tag) ensures exists j :: 0 <= j < |es| && KeyFor(es[j]) == KeyFor(acl[i]) {
        if KeyFor(acl[i]) != KeyFor(es[0]) {
          RemovedAt(acl, es[0], i);
          var at := Find(acl, KeyFor(es[0]));
          var after := if at == -1 || i < at then i else i - 1;
          var j :| 0 <= j < |rest| && KeyFor(rest[j]) == KeyFor(acl'[after]);
          assert es[j + 1] == rest[j];
        }
      }
    }
  }

  lemma RemovableRest(acl: seq<Entry>, es: seq<Entry>)
    requires Unique(acl) && es != [] && !Base(es[0].tag) && (es[0].tag.Mask? ==> !SomeNamed(acl))
    ensures Removable(acl, es) <==> Removable(Removed(acl, es[0]), es[1..])
  {
    var rest, acl' := es[1..], Removed(acl, es[0]);
    assert es[0].tag.Mask? ==> Covers(es[..0], acl);
    hide Covers; hide Removed;
    forall i | 0 < i < |es| ensures Covers(es[..i], acl) <==> Covers(rest[..i - 1], acl') {
      assert es[..i][1..] == rest[..i - 1];
      CoversRest(acl, es[..i]);
    }
    assert forall i :: 0 <= i < |rest| ==> rest[i] == es[i + 1];
    assert forall i :: 0 < i < |es| ==> es[i] == rest[i - 1];
  }

  /** Without recalculation, removals go through if and only if they are of that kind. */
  lemma {:induction false} RemoveNoRecalc(acl: seq<Entry>, es: seq<Entry>)
    requires Valid(acl)
    ensures Update(acl, es, RemoveEntries, false).1 <==> Removable(acl, es)
    decreases |es|
  {
    if es != [] {
      RemoveOneNoRecalc(acl, es[0]);
      ValidUnique(acl);
      hide Valid; hide Removed;
      if Valid(Edited(acl, es[0], RemoveEntries, false)) {
        RemovableRest(acl, es);
        RemoveNoRecalc(Removed(acl, es[0]), es[1..]);
      }
    }
  }

  // ----- what the file holds -----

  /** The file's list stays valid, whatever the update. */
  lemma {:induction false} FileStaysValid(acl: seq<Entry>, es: seq<Entry>, op: Operation, recalcMask: bool)
    requires Valid(acl)
    ensures Valid(Update(acl, es, op, recalcMask).0)
    decreases |es|
  {
    if es != [] && Valid(Edited(acl, es[0], op, recalcMask)) { FileStaysValid(Edited(acl, es[0], op, recalcMask), es[1..], op, recalcMask); }
  }

  /** A failed update has applied all the entries before the one it failed on, and no other. */
  lemma {:induction false} FailedPrefix(acl: seq<Entry>, es: seq<Entry>, op: Operation, recalcMask: bool) returns (k: nat)
    requires !Update(acl, es, op, recalcMask).1
    ensures k < |es| && Update(acl, es[..k], op, recalcMask) == (Update(acl, es, op, recalcMask).0, true)
    ensures !Valid(Edited(Update(acl, es, op, recalcMask).0, es[k], op, recalcMask))
    decreases |es|
  {
    hide Valid; hide Edited;
    var acl' := Edited(acl, es[0], op, recalcMask);
    if Valid(acl') {
      k := FailedPrefix(acl', es[1..], op, recalcMask);
      k := k + 1;
      assert es[..k][1..] == es[1..][..k - 1];
    } else {
      k := 0;
    }
  }

  /** A default list that does not exist yet cannot be built: one entry at a time is never valid. */
  lemma NothingFromNothing(es: seq<Entry>, recalcMask: bool)
    requires es != []
    ensures Update([], es, ModifyEntries, recalcMask) == ([], false)
  {
  }
}
