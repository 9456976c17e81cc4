/** `GET /api/capsules` (src/app/api/capsules/route.ts): the signed-in user's
    capsules, newest first, with every capsule that has reached its unlock
    date marked unlocked, both in the store and in the returned list. */
module CapsuleList {
  import opened Wrappers
  import opened Db
  import Lists

  /** The `where` filter of the query: owned by `uid` and not deleted. */
  predicate Listed(c: Capsule, uid: string)
  {
    c.userId == uid && !c.isDeleted
  }

  /** `orderBy: { createdAt: "desc" }`. */
  predicate NewestFirst(a: Summary, b: Summary)
  {
    a.createdAt >= b.createdAt
  }

  /** The rows the query selects, in table order. */
  function Mine(rows: seq<Capsule>, uid: string): (r: seq<Capsule>)
    ensures forall k :: 0 <= k < |r| ==> r[k] in rows && Listed(r[k], uid)
    ensures forall i :: 0 <= i < |rows| && Listed(rows[i], uid) ==> rows[i] in r
    ensures Lists.Subsequence(r, rows)
  {
    Lists.FilterIsSubsequence(rows, (c: Capsule) => Listed(c, uid));
    Lists.Filter(rows, (c: Capsule) => Listed(c, uid))
  }

  /** The `select` of the query. */
  function Project(s: seq<Capsule>): (r: seq<Summary>)
    ensures |r| == |s| && forall i :: 0 <= i < |s| ==> r[i] == ToSummary(s[i])
  {
    seq(|s|, i requires 0 <= i < |s| => ToSummary(s[i]))
  }

  /** The listing query: the owner's live capsules, projected and sorted. */
  function Owned(rows: seq<Capsule>, uid: string): (r: seq<Summary>)
    ensures multiset(r) == multiset(Project(Mine(rows, uid)))
    ensures Lists.Sorted(r, NewestFirst)
  {
    Lists.SortBySorted(Project(Mine(rows, uid)), NewestFirst);
    Lists.SortBy(Project(Mine(rows, uid)), NewestFirst)
  }

  /** No id occurs twice in a list. */
  predicate UniqueIds(s: seq<Summary>)
  {
    forall i, j :: 0 <= i < j < |s| ==> s[i].id != s[j].id
  }

  /** The set of ids in a list. */
  function Ids(s: seq<Summary>): set<nat>
  {
    set x | x in s :: x.id
  }

  /** Every selected row is the row its id names. */
  lemma MineRows(rows: seq<Capsule>, uid: string)
    requires RowsValid(rows)
    ensures var m := Mine(rows, uid);
      forall k :: 0 <= k < |m| ==> m[k].id < |rows| && m[k] == rows[m[k].id] && Listed(m[k], uid)
  {
    var m := Mine(rows, uid);
    forall k | 0 <= k < |m| ensures m[k].id < |rows| && m[k] == rows[m[k].id] {
      assert m[k] in rows;
    }
  }

  /** The projection of the selected rows has no repeated id. */
  lemma ProjectUnique(rows: seq<Capsule>, uid: string)
    requires RowsValid(rows)
    ensures UniqueIds(Project(Mine(rows, uid)))
  {
    var m := Mine(rows, uid);
    RowsNoDup(rows);
    Lists.FilterNoDup(rows, (c: Capsule) => Listed(c, uid));
    MineRows(rows, uid);
    forall a, b | 0 <= a < b < |m| ensures m[a].id != m[b].id {
      assert m[a] != m[b];
    }
  }

  /** Members of the sorted listing come from the projection and have unique ids. */
  lemma SortedUnique(p: seq<Summary>)
    requires UniqueIds(p)
    ensures UniqueIds(Lists.SortBy(p, NewestFirst))
  {
    var r := Lists.SortBy(p, NewestFirst);
    assert Lists.NoDup(p);
    Lists.SortByNoDup(p, NewestFirst);
    Lists.SortByMembers(p, NewestFirst);
    forall a, b | 0 <= a < b < |r| ensures r[a].id != r[b].id {
      assert r[a] in p && r[b] in p;
      var i :| 0 <= i < |p| && p[i] == r[a];
      var j :| 0 <= j < |p| && p[j] == r[b];
    }
  }

  /** What the query returns: exactly the projections of the rows owned by
      `uid` that are not deleted, each once, newest first. */
  lemma OwnedListing(rows: seq<Capsule>, uid: string)
    requires RowsValid(rows)
    ensures var r := Owned(rows, uid);
      && (forall x :: x in r ==> x.id < |rows| && x == ToSummary(rows[x.id]) && Listed(rows[x.id], uid))
      && (forall i :: 0 <= i < |rows| && Listed(rows[i], uid) ==> ToSummary(rows[i]) in r)
      && UniqueIds(r)
      && Lists.Sorted(r, NewestFirst)
  {
    var m := Mine(rows, uid);
    var p := Project(m);
    var r := Lists.SortBy(p, NewestFirst);
    MineRows(rows, uid);
    ProjectUnique(rows, uid);
    SortedUnique(p);
    Lists.SortByMembers(p, NewestFirst);
    Lists.SortBySorted(p, NewestFirst);
    forall x | x in r ensures x.id < |rows| && x == ToSummary(rows[x.id]) && Listed(rows[x.id], uid) {
      var k :| 0 <= k < |p| && p[k] == x;
    }
    forall i | 0 <= i < |rows| && Listed(rows[i], uid) ensures ToSummary(rows[i]) in r {
      assert rows[i] in m;
      var k :| 0 <= k < |m| && m[k] == rows[i];
      assert p[k] == ToSummary(rows[i]);
    }
  }

  /** `!capsule.isUnlocked && new Date(capsule.unlockDate) <= now`. */
  predicate Due(c: Summary, now: int)
  {
    !c.isUnlocked && c.unlockDate <= now
  }

  /** `capsulesToUnlock`: the listed capsules that are due. */
  function ToUnlock(s: seq<Summary>, now: int): seq<Summary>
  {
    Lists.Filter(s, (c: Summary) => Due(c, now))
  }

  /** The listing after the unlock pass. */
  function UnlockDue(s: seq<Summary>, now: int): (r: seq<Summary>)
    ensures |r| == |s|
    ensures forall i :: 0 <= i < |s| ==> r[i] == s[i].(isUnlocked := r[i].isUnlocked)
    ensures forall i :: 0 <= i < |s| && s[i].unlockDate <= now ==> r[i].isUnlocked
    ensures forall i :: 0 <= i < |s| && s[i].isUnlocked ==> r[i].isUnlocked
    ensures forall i :: 0 <= i < |s| && s[i].unlockDate > now ==> r[i] == s[i]
  {
    seq(|s|, i requires 0 <= i < |s| => if Due(s[i], now) then s[i].(isUnlocked := true) else s[i])
  }

  /** A second pass at the same time finds nothing to unlock and changes nothing. */
  lemma UnlockIdempotent(s: seq<Summary>, now: int)
    ensures ToUnlock(UnlockDue(s, now), now) == []
    ensures UnlockDue(UnlockDue(s, now), now) == UnlockDue(s, now)
  {
    var r := UnlockDue(s, now);
    var f := ToUnlock(r, now);
  }

  /** The table after the unlock pass: the due rows of the listing are unlocked. */
  function UnlockRows(rows: seq<Capsule>, uid: string, now: int): (r: seq<Capsule>)
    ensures |r| == |rows|
    ensures forall i :: 0 <= i < |rows| ==> r[i] == rows[i].(isUnlocked := r[i].isUnlocked)
    ensures forall i :: 0 <= i < |rows| && rows[i].isUnlocked ==> r[i].isUnlocked
    ensures forall i :: 0 <= i < |rows| && r[i] != rows[i] ==>
      Listed(rows[i], uid) && !rows[i].isUnlocked && rows[i].unlockDate <= now && r[i].isUnlocked
  {
    seq(|rows|, i requires 0 <= i < |rows| =>
      if Listed(rows[i], uid) && Due(ToSummary(rows[i]), now) then rows[i].(isUnlocked := true) else rows[i])
  }

  /** After the pass, every listed row that is due is unlocked; a second
      pass at the same time leaves the table alone. */
  lemma UnlockRowsComplete(rows: seq<Capsule>, uid: string, now: int)
    ensures forall i :: 0 <= i < |rows| && Listed(rows[i], uid) && rows[i].unlockDate <= now ==>
      UnlockRows(rows, uid, now)[i].isUnlocked
    ensures UnlockRows(UnlockRows(rows, uid, now), uid, now) == UnlockRows(rows, uid, now)
  {
  }

  /** Rows whose id is in `ids` are marked unlocked (the store updates). */
  function MarkRows(rows: seq<Capsule>, ids: set<nat>): seq<Capsule>
  {
    seq(|rows|, i requires 0 <= i < |rows| => if i in ids then rows[i].(isUnlocked := true) else rows[i])
  }

  /** List entries whose id is in `ids` are marked unlocked (the in-place patch). */
  function Mark(s: seq<Summary>, ids: set<nat>): seq<Summary>
  {
    seq(|s|, i requires 0 <= i < |s| => if s[i].id in ids then s[i].(isUnlocked := true) else s[i])
  }

  /** `capsules.findIndex(c => c.id === id)`. */
  method FindIndex(capsules: array<Summary>, id: nat) returns (index: int)
    ensures -1 <= index < capsules.Length
    ensures index == -1 ==> forall j :: 0 <= j < capsules.Length ==> capsules[j].id != id
    ensures index >= 0 ==> capsules[index].id == id && forall j :: 0 <= j < index ==> capsules[j].id != id
  {
    index := 0;
    while index < capsules.Length
      invariant 0 <= index <= capsules.Length
      invariant forall j :: 0 <= j < index ==> capsules[j].id != id
    {
      if capsules[index].id == id {
        return;
      }
      index := index + 1;
    }
    index := -1;
  }

  /** Lines 66-72: for each capsule to unlock, find it in the list by id and
      set its `isUnlocked` in place. */
  method PatchList(capsules: array<Summary>, toUnlock: seq<Summary>)
    requires UniqueIds(capsules[..])
    modifies capsules
    ensures capsules[..] == Mark(old(capsules[..]), Ids(toUnlock))
  {
    ghost var before := capsules[..];
    var k := 0;
    while k < |toUnlock|
      invariant 0 <= k <= |toUnlock|
      invariant capsules[..] == Mark(before, Ids(toUnlock[..k]))
    {
      var id := toUnlock[k].id;
      assert Ids(toUnlock[..k + 1]) == Ids(toUnlock[..k]) + {id} by {
        assert toUnlock[..k + 1] == toUnlock[..k] + [toUnlock[k]];
      }
      var index := FindIndex(capsules, id);
      if index != -1 {
        capsules[index] := capsules[index].(isUnlocked := true);
      }
      k := k + 1;
    }
    assert toUnlock[..k] == toUnlock;
  }

  /** Lines 28-47 and 66-72: the listing as the array the handler returns,
      patched in place. */
  method PatchedCopy(listed: seq<Summary>, toUnlock: seq<Summary>) returns (body: seq<Summary>)
    requires UniqueIds(listed)
    ensures body == Mark(listed, Ids(toUnlock))
  {
    var capsules := new Summary[|listed|](i requires 0 <= i < |listed| => listed[i]);
    assert capsules[..] == listed;
    PatchList(capsules, toUnlock);
    body := capsules[..];
  }

  /** With unique ids, marking the ids of the due entries is the unlock pass. */
  lemma MarkDueIsUnlock(s: seq<Summary>, now: int)
    requires UniqueIds(s)
    ensures Mark(s, Ids(ToUnlock(s, now))) == UnlockDue(s, now)
  {
    var f := ToUnlock(s, now);
    forall i | 0 <= i < |s| ensures s[i].id in Ids(f) <==> Due(s[i], now) {
      if s[i].id in Ids(f) {
        var x :| x in f && x.id == s[i].id;
        var j :| 0 <= j < |s| && s[j] == x;
        assert i == j;
      }
      if Due(s[i], now) {
        assert s[i] in f;
      }
    }
  }

  /** Lines 57-64: one store update per capsule to unlock, in turn. */
  method UnlockInStore(store: Store, toUnlock: seq<Summary>)
    requires store.Valid()
    requires forall k :: 0 <= k < |toUnlock| ==> toUnlock[k].id < |store.capsules|
    modifies store
    ensures store.Valid()
    ensures store.capsules == MarkRows(old(store.capsules), Ids(toUnlock))
    ensures store.shares == old(store.shares) && store.users == old(store.users) && store.comments == old(store.comments)
  {
    ghost var rows := store.capsules;
    var k := 0;
    while k < |toUnlock|
      invariant 0 <= k <= |toUnlock|
      invariant store.Valid() && |store.capsules| == |rows|
      invariant store.capsules == MarkRows(rows, Ids(toUnlock[..k]))
      invariant store.shares == old(store.shares) && store.users == old(store.users) && store.comments == old(store.comments)
    {
      var id := toUnlock[k].id;
      assert Ids(toUnlock[..k + 1]) == Ids(toUnlock[..k]) + {id} by {
        assert toUnlock[..k + 1] == toUnlock[..k] + [toUnlock[k]];
      }
      store.SetUnlocked(id);
      k := k + 1;
    }
    assert toUnlock[..k] == toUnlock;
  }

  /** Marking the ids of the due listed entries in the table is the table's unlock pass. */
  lemma StoreEffect(rows: seq<Capsule>, uid: string, now: int)
    requires RowsValid(rows)
    requires forall k :: 0 <= k < |ToUnlock(Owned(rows, uid), now)| ==> ToUnlock(Owned(rows, uid), now)[k].id < |rows|
    ensures MarkRows(rows, Ids(ToUnlock(Owned(rows, uid), now))) == UnlockRows(rows, uid, now)
  {
    var listed := Owned(rows, uid);
    var toUnlock := ToUnlock(listed, now);
    OwnedListing(rows, uid);
    forall i | 0 <= i < |rows|
      ensures i in Ids(toUnlock) <==> Listed(rows[i], uid) && Due(ToSummary(rows[i]), now)
    {
      if i in Ids(toUnlock) {
        var x :| x in toUnlock && x.id == i;
        assert x in listed;
      }
      if Listed(rows[i], uid) && Due(ToSummary(rows[i]), now) {
        assert ToSummary(rows[i]) in listed;
        assert ToSummary(rows[i]) in toUnlock;
      }
    }
  }

  /** What the handler needs of the listing before it runs the pass. */
  lemma ListingFacts(rows: seq<Capsule>, uid: string, now: int)
    requires RowsValid(rows)
    ensures UniqueIds(Owned(rows, uid))
    ensures forall k :: 0 <= k < |ToUnlock(Owned(rows, uid), now)| ==> ToUnlock(Owned(rows, uid), now)[k].id < |rows|
    ensures MarkRows(rows, Ids(ToUnlock(Owned(rows, uid), now))) == UnlockRows(rows, uid, now)
    ensures Mark(Owned(rows, uid), Ids(ToUnlock(Owned(rows, uid), now))) == UnlockDue(Owned(rows, uid), now)
  {
    OwnedListing(rows, uid);
    var t := ToUnlock(Owned(rows, uid), now);
    forall k | 0 <= k < |t| ensures t[k].id < |rows| {
      assert t[k] in Owned(rows, uid);
    }
    StoreEffect(rows, uid, now);
    MarkDueIsUnlock(Owned(rows, uid), now);
  }

  /** Marking no ids changes nothing. */
  lemma NothingToMark(rows: seq<Capsule>, s: seq<Summary>)
    ensures MarkRows(rows, {}) == rows && Mark(s, {}) == s
  {
  }

  /** The handler. */
  method Get(store: Store, session: Option<string>, now: int) returns (status: int, body: seq<Summary>)
    requires store.Valid()
    modifies store
    ensures store.Valid()
    ensures store.shares == old(store.shares) && store.users == old(store.users) && store.comments == old(store.comments)
    ensures !SignedIn(session) ==> status == 401 && body == [] && store.capsules == old(store.capsules)
    ensures SignedIn(session) ==>
      && status == 200
      && body == UnlockDue(Owned(old(store.capsules), session.value), now)
      && store.capsules == UnlockRows(old(store.capsules), session.value, now)
  {
    if !SignedIn(session) {
      return 401, [];
    }
    var uid := session.value;
    ghost var rows := store.capsules;
    var listed := Owned(store.capsules, uid);
    var toUnlock := ToUnlock(listed, now);
    ListingFacts(rows, uid, now);
    if |toUnlock| > 0 {
      UnlockInStore(store, toUnlock);
      body := PatchedCopy(listed, toUnlock);
    } else {
      assert Ids(toUnlock) == {};
      NothingToMark(rows, listed);
      body := listed;
    }
    status := 200;
  }
}
