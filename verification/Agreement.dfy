/** What it means for a loaded list to agree with the server, and the count arithmetic behind it. */
module Agreement {
  import opened IssueModel
  import opened CacheHelpers
  import opened Membership

  /** The server-side total of one status column of one list. */
  ghost function Members(w: Server, f: Filter, s: Status): set<Id>
  {
    set id | id in w.issues && w.issues[id].status == s && Belongs(w.issues[id], f, w.involves)
  }

  ghost function Count(w: Server, f: Filter, s: Status): nat { |Members(w, f, s)| }

  /** The loaded window of one column holds distinct, current rows of that status. */
  ghost predicate FreshColumn(issues: seq<Issue>, s: Status, w: Server)
  {
    && DistinctIds(issues)
    && forall c :: c in issues ==> c.id in w.issues && w.issues[c.id] == c && c.status == s
  }

  ghost predicate Fresh(resp: ListCache, w: Server)
  {
    forall s :: Paginated(s) ==> FreshColumn(GetBucket(resp, s).issues, s, w)
  }

  ghost predicate MembersOnly(resp: ListCache, f: Filter, w: Server)
  {
    forall s, c :: Paginated(s) && c in GetBucket(resp, s).issues ==> Belongs(c, f, w.involves)
  }

  ghost predicate TotalsExact(resp: ListCache, f: Filter, w: Server)
  {
    forall s :: Paginated(s) ==> GetBucket(resp, s).total == Count(w, f, s)
  }

  /** Rows current, all of them members, every paginated total exact. */
  ghost predicate Agrees(resp: ListCache, f: Filter, w: Server)
  {
    Fresh(resp, w) && MembersOnly(resp, f, w) && TotalsExact(resp, f, w)
  }

  /** A loaded card is in the column its server row names, and nowhere else. */
  lemma LoadedIn(resp: ListCache, w: Server, id: Id, s: Status)
    requires Fresh(resp, w) && Paginated(s)
    requires HasId(GetBucket(resp, s).issues, id)
    ensures id in w.issues && w.issues[id].status == s && w.issues[id] in GetBucket(resp, s).issues
    ensures FindIssueLocation(resp, id) == Some(Location(s, w.issues[id]))
  {
    HasIdMember(GetBucket(resp, s).issues, id);
    var loc := FindIssueLocation(resp, id);
    assert loc.Some?;
  }

  /** Agreement bounds every window by its total, so `hasMore` is never negative. */
  lemma LoadedAtMostTotal(resp: ListCache, f: Filter, w: Server, s: Status)
    requires Agrees(resp, f, w) && Paginated(s)
    ensures |GetBucket(resp, s).issues| <= GetBucket(resp, s).total
  {
    var issues := GetBucket(resp, s).issues;
    IdsOf(issues);
    var ids := set c | c in issues :: c.id;
    assert ids <= Members(w, f, s);
    SubsetSize(ids, Members(w, f, s));
  }

  lemma SubsetSize<T>(a: set<T>, b: set<T>)
    requires a <= b
    ensures |a| <= |b|
  {
    assert b == a + (b - a);
  }

  lemma {:induction false} IdsOf(issues: seq<Issue>)
    requires DistinctIds(issues)
    ensures |set c | c in issues :: c.id| == |issues|
  {
    if issues != [] {
      var tail := issues[1..];
      IdsOf(tail);
      var rest := set c | c in tail :: c.id;
      assert issues[0].id !in rest;
      assert (set c | c in issues :: c.id) == rest + {issues[0].id};
    }
  }

  function Bit(b: bool): int { if b then 1 else 0 }

  lemma SizeAround<T>(a: set<T>, x: T)
    ensures |a| == |a - {x}| + Bit(x in a)
  {
    if x in a { assert a == (a - {x}) + {x}; } else { assert a == a - {x}; }
  }

  /** Two servers, or two parts of them, that differ in one row at most. */
  ghost predicate Around(w: Server, w': Server, id: Id)
  {
    && w'.involves == w.involves
    && forall k :: k != id ==>
         (k in w.issues <==> k in w'.issues) && (k in w.issues ==> w'.issues[k] == w.issues[k])
  }

  lemma OthersStay(w: Server, w': Server, f: Filter, s: Status, id: Id)
    requires Around(w, w', id)
    ensures Members(w', f, s) - {id} == Members(w, f, s) - {id}
  {
  }

  /** One row comes, goes or changes: the counts follow it. */
  lemma CountAround(w: Server, w': Server, f: Filter, s: Status, id: Id)
    requires Around(w, w', id)
    ensures Count(w', f, s) == Count(w, f, s) - Bit(id in Members(w, f, s)) + Bit(id in Members(w', f, s))
  {
    OthersStay(w, w', f, s, id);
    SizeAround(Members(w, f, s), id);
    SizeAround(Members(w', f, s), id);
  }

  /** One row changes: its old column loses it, its new column gains it. */
  lemma CountAfterChange(w: Server, w': Server, f: Filter, s: Status, id: Id, after: Issue)
    requires id in w.issues && w'.issues == w.issues[id := after] && w'.involves == w.involves
    ensures var before := w.issues[id];
      Count(w', f, s) == Count(w, f, s)
        - Bit(before.status == s && Belongs(before, f, w.involves))
        + Bit(after.status == s && Belongs(after, f, w.involves))
  {
    CountAround(w, w', f, s, id);
  }

  /** A column none of whose cards is the changed row stays current. */
  lemma UntouchedColumn(issues: seq<Issue>, s: Status, w: Server, w': Server, id: Id)
    requires FreshColumn(issues, s, w) && !HasId(issues, id)
    requires forall k :: k in w.issues && k != id ==> k in w'.issues && w'.issues[k] == w.issues[k]
    ensures FreshColumn(issues, s, w')
  {
    forall c | c in issues ensures c.id != id { HasIdMember(issues, id); }
  }

  lemma ColumnLosesCard(issues: seq<Issue>, s: Status, w: Server, w': Server, id: Id)
    requires FreshColumn(issues, s, w)
    requires forall k :: k in w.issues && k != id ==> k in w'.issues && w'.issues[k] == w.issues[k]
    ensures FreshColumn(Without(issues, id), s, w')
  {
    WithoutDistinct(issues, id);
  }

  lemma ColumnGainsCard(issues: seq<Issue>, s: Status, w: Server, card: Issue)
    requires FreshColumn(issues, s, w) && !HasId(issues, card.id)
    requires card.id in w.issues && w.issues[card.id] == card && card.status == s
    ensures FreshColumn(InsertByPosition(issues, card), s, w)
  {
    InsertDistinct(issues, card);
    InsertMembers(issues, card);
  }

  lemma ColumnPatched(issues: seq<Issue>, s: Status, w: Server, w': Server, merged: Issue)
    requires FreshColumn(issues, s, w)
    requires w'.issues == w.issues[merged.id := merged] && merged.status == s
    ensures FreshColumn(Replaced(issues, merged.id, merged), s, w')
    ensures forall c :: c in Replaced(issues, merged.id, merged) ==> c == merged || c in issues
  {
    var r := Replaced(issues, merged.id, merged);
    forall i, j | 0 <= i < j < |r| ensures r[i].id != r[j].id {
      assert issues[i].id != issues[j].id;
    }
  }

  /** The loaded card, where it is. */
  ghost predicate LoadedAt(resp: ListCache, w: Server, id: Id)
  {
    && id in w.issues && FindIssueLocation(resp, id) == Some(Location(w.issues[id].status, w.issues[id]))
    && HasId(GetBucket(resp, w.issues[id].status).issues, id)
  }

  lemma OwnColumnFresh(issues: seq<Issue>, s: Status, w: Server, w': Server, merged: Issue)
    requires FreshColumn(issues, s, w) && merged.status == s && w'.issues == w.issues[merged.id := merged]
    ensures FreshColumn(Replaced(issues, merged.id, merged), s, w')
    ensures FreshColumn(InsertByPosition(Without(issues, merged.id), merged), s, w')
  {
    WithoutHasId(issues, merged.id, merged.id);
    ColumnLosesCard(issues, s, w, w', merged.id);
    ColumnPatched(issues, s, w, w', merged);
    ColumnGainsCard(Without(issues, merged.id), s, w', merged);
  }

  lemma PatchKeepsOwnColumn(resp: ListCache, w: Server, w': Server, id: Id, patch: Patch)
    requires Fresh(resp, w) && LoadedAt(resp, w, id) && Paginated(w.issues[id].status)
    requires w'.issues == w.issues[id := Merge(w.issues[id], patch)]
    ensures FreshColumn(GetBucket(PatchIssueInBuckets(resp, id, patch), w.issues[id].status).issues,
      w.issues[id].status, w')
  {
    var merged, s := Merge(w.issues[id], patch), w.issues[id].status;
    var issues := GetBucket(resp, s).issues;
    if merged.status == s {
      OwnColumnFresh(issues, s, w, w', merged);
    } else {
      ColumnLosesCard(issues, s, w, w', id);
    }
  }

  lemma PatchIs(resp: ListCache, w: Server, id: Id, patch: Patch) returns (moved: bool)
    requires LoadedAt(resp, w, id)
    ensures var from, merged := w.issues[id].status, Merge(w.issues[id], patch);
      PatchIssueInBuckets(resp, id, patch) ==
        if merged.status == from then PatchInColumn(resp, from, merged, moved)
          else PatchAcross(resp, from, merged.status, merged)
  {
    moved := patch.position.Some? && patch.position.value != w.issues[id].position;
  }

  lemma AcrossColumn(resp: ListCache, from: Status, to: Status, merged: Issue, s: Status)
    requires from != to && s != from
    ensures GetBucket(PatchAcross(resp, from, to, merged), s).issues ==
      if s == to then InsertByPosition(GetBucket(resp, s).issues, merged) else GetBucket(resp, s).issues
  {
  }

  lemma InColumnOthers(resp: ListCache, t: Status, merged: Issue, moved: bool, s: Status)
    requires s != t
    ensures GetBucket(PatchInColumn(resp, t, merged, moved), s) == GetBucket(resp, s)
  {
  }

  /** What a patch writes into a column the card was not in. */
  lemma OtherColumnIs(resp: ListCache, w: Server, id: Id, patch: Patch, s: Status)
    requires LoadedAt(resp, w, id) && s != w.issues[id].status
    ensures var merged := Merge(w.issues[id], patch);
      GetBucket(PatchIssueInBuckets(resp, id, patch), s).issues ==
        if merged.status == s then InsertByPosition(GetBucket(resp, s).issues, merged) else GetBucket(resp, s).issues
  {
    hide PatchIssueInBuckets, PatchAcross, PatchInColumn, InsertByPosition;
    var moved := PatchIs(resp, w, id, patch);
    var from, merged := w.issues[id].status, Merge(w.issues[id], patch);
    if merged.status != from {
      AcrossColumn(resp, from, merged.status, merged, s);
    } else {
      InColumnOthers(resp, from, merged, moved, s);
    }
  }

  lemma PatchKeepsOtherColumn(resp: ListCache, w: Server, w': Server, id: Id, patch: Patch, s: Status)
    requires Fresh(resp, w) && LoadedAt(resp, w, id) && Paginated(s) && s != w.issues[id].status
    requires w'.issues == w.issues[id := Merge(w.issues[id], patch)]
    ensures FreshColumn(GetBucket(PatchIssueInBuckets(resp, id, patch), s).issues, s, w')
  {
    var merged := Merge(w.issues[id], patch);
    var issues := GetBucket(resp, s).issues;
    if HasId(issues, id) { LoadedIn(resp, w, id, s); }
    UntouchedColumn(issues, s, w, w', id);
    OtherColumnIs(resp, w, id, patch, s);
    if merged.status == s { ColumnGainsCard(issues, s, w', merged); }
  }

  /** Patching a loaded card that stays on a paginated status leaves every column current;
      one that goes to `Cancelled` leaves the paginated columns. */
  lemma PatchKeepsFresh(resp: ListCache, w: Server, w': Server, id: Id, patch: Patch)
    requires Fresh(resp, w) && id in w.issues
    requires w'.issues == w.issues[id := Merge(w.issues[id], patch)]
    requires FindIssueLocation(resp, id).Some?
    ensures Fresh(PatchIssueInBuckets(resp, id, patch), w')
  {
    var loc := FindIssueLocation(resp, id).value;
    HasIdMember(GetBucket(resp, loc.status).issues, id);
    LoadedIn(resp, w, id, loc.status);
    forall s | Paginated(s) ensures FreshColumn(GetBucket(PatchIssueInBuckets(resp, id, patch), s).issues, s, w') {
      if s == w.issues[id].status {
        PatchKeepsOwnColumn(resp, w, w', id, patch);
      } else {
        PatchKeepsOtherColumn(resp, w, w', id, patch, s);
      }
    }
  }

  lemma RemoveKeepsFresh(resp: ListCache, w: Server, w': Server, id: Id)
    requires Fresh(resp, w)
    requires forall k :: k in w.issues && k != id ==> k in w'.issues && w'.issues[k] == w.issues[k]
    requires FindIssueLocation(resp, id).Some?
    ensures Fresh(RemoveIssueFromBuckets(resp, id), w')
  {
    var loc := FindIssueLocation(resp, id).value;
    HasIdMember(GetBucket(resp, loc.status).issues, id);
    LoadedIn(resp, w, id, loc.status);
    var next := RemoveIssueFromBuckets(resp, id);
    forall s | Paginated(s) ensures FreshColumn(GetBucket(next, s).issues, s, w') {
      var issues := GetBucket(resp, s).issues;
      if HasId(issues, id) { LoadedIn(resp, w, id, s); }
      if s == loc.status {
        ColumnLosesCard(issues, s, w, w', id);
      } else {
        UntouchedColumn(issues, s, w, w', id);
      }
    }
  }

  lemma AbsentKeepsFresh(resp: ListCache, next: ListCache, w: Server, w': Server, id: Id)
    requires Fresh(resp, w)
    requires forall k :: k in w.issues && k != id ==> k in w'.issues && w'.issues[k] == w.issues[k]
    requires FindIssueLocation(resp, id).None?
    requires forall s :: GetBucket(next, s).issues == GetBucket(resp, s).issues
    ensures Fresh(next, w')
  {
    forall s | Paginated(s) ensures FreshColumn(GetBucket(next, s).issues, s, w') {
      UntouchedColumn(GetBucket(resp, s).issues, s, w, w', id);
    }
  }
}
