/** Double delivery: the same change reaches the table once from the client and once from the server. */
module Echo {
  import opened IssueModel
  import opened CacheHelpers
  import opened Membership
  import opened RulesTable

  predicate NoMoreThan(a: Dims, b: Dims)
  {
    (a.assignee ==> b.assignee) && (a.project ==> b.project) && (a.status ==> b.status)
  }

  lemma ReplacedNoop(issues: seq<Issue>, merged: Issue)
    requires forall c :: c in issues && c.id == merged.id ==> c == merged
    ensures Replaced(issues, merged.id, merged) == issues
  {
  }

  /** After one patch every loaded card with this id is the patched card. */
  lemma PatchedOnce(data: ListCache, id: Id, patch: Patch, s: Status)
    requires OneBucketPerId(data) && FindIssueLocation(data, id).Some?
    ensures var loc := FindIssueLocation(data, id).value;
      var merged := Merge(loc.issue, patch);
      var cards := GetBucket(PatchIssueInBuckets(data, id, patch), s).issues;
      && (forall c :: Paginated(s) && c in cards && c.id == id ==> c == merged && s == Or(patch.status, loc.status))
      && (s == Or(patch.status, loc.status) ==> merged in cards)
  {
    var loc := FindIssueLocation(data, id).value;
    var merged := Merge(loc.issue, patch);
    HasIdMember(GetBucket(data, loc.status).issues, id);
    HasIdMember(GetBucket(data, s).issues, id);
    if Or(patch.status, loc.status) == loc.status {
      OnceInColumn(data, loc.status, merged, patch.position.Some? && patch.position.value != loc.issue.position);
    } else {
      OnceAcross(data, loc.status, patch.status.value, merged, s);
    }
  }

  lemma OnceInColumn(data: ListCache, s: Status, merged: Issue, moved: bool)
    requires HasId(GetBucket(data, s).issues, merged.id)
    ensures var cards := GetBucket(PatchInColumn(data, s, merged, moved), s).issues;
      merged in cards && forall c :: c in cards && c.id == merged.id ==> c == merged
  {
    var issues := GetBucket(data, s).issues;
    var i := IndexOf(issues, merged.id);
    assert Replaced(issues, merged.id, merged)[i] == merged;
    InsertMembers(Without(issues, merged.id), merged);
  }

  lemma OnceAcross(data: ListCache, from: Status, to: Status, merged: Issue, s: Status)
    requires from != to && OneBucketPerId(data) && Paginated(from) && HasId(GetBucket(data, from).issues, merged.id)
    ensures var cards := GetBucket(PatchAcross(data, from, to, merged), s).issues;
      && (forall c :: Paginated(s) && c in cards && c.id == merged.id ==> c == merged && s == to)
      && (s == to ==> merged in cards)
  {
    InsertMembers(GetBucket(data, to).issues, merged);
    HasIdMember(GetBucket(data, s).issues, merged.id);
  }

  /** A card that already carries the patch is patched to itself. */
  lemma PatchAgain(next: ListCache, id: Id, patch: Patch)
    requires FindIssueLocation(next, id).Some?
    requires var loc := FindIssueLocation(next, id).value;
      && Merge(loc.issue, patch) == loc.issue && Or(patch.status, loc.status) == loc.status
      && forall c :: c in GetBucket(next, loc.status).issues && c.id == id ==> c == loc.issue
    ensures PatchIssueInBuckets(next, id, patch) == next
  {
    var loc := FindIssueLocation(next, id).value;
    ReplacedNoop(GetBucket(next, loc.status).issues, loc.issue);
  }

  /** After a patch the card, if still found, is the patched card, and a second patch is the identity. */
  lemma PatchTwice(data: ListCache, id: Id, patch: Patch)
    requires OneBucketPerId(data) && FindIssueLocation(data, id).Some?
    ensures var card := Merge(FindIssueLocation(data, id).value.issue, patch);
      var next := PatchIssueInBuckets(data, id, patch);
      FindIssueLocation(next, id).Some? ==>
        FindIssueLocation(next, id).value.issue == card && PatchIssueInBuckets(next, id, patch) == next
  {
    var next := PatchIssueInBuckets(data, id, patch);
    var again := FindIssueLocation(next, id);
    if again.Some? {
      PatchedOnce(data, id, patch, again.value.status);
      PatchAgain(next, id, patch);
    }
  }

  lemma RemoveTwice(data: ListCache, id: Id)
    requires OneBucketPerId(data) && FindIssueLocation(data, id).Some?
    ensures FindIssueLocation(RemoveIssueFromBuckets(data, id), id).None?
  {
    var loc := FindIssueLocation(data, id).value;
    var next := RemoveIssueFromBuckets(data, id);
    HasIdMember(GetBucket(data, loc.status).issues, id);
    forall s | Paginated(s) ensures !HasId(GetBucket(next, s).issues, id) {
      HasIdMember(GetBucket(next, s).issues, id);
    }
  }

  lemma SameCardsSameLocation(a: ListCache, b: ListCache, id: Id)
    requires forall s :: GetBucket(a, s).issues == GetBucket(b, s).issues
    ensures FindIssueLocation(a, id).None? <==> FindIssueLocation(b, id).None?
  {
  }

  /** With a base that already carries the patch, an unloaded row changes nothing but the stale flag. */
  lemma EchoOnAbsent(data: ListCache, c: Contract, id: Id, patch: Patch, changed: Dims, base: Option<Issue>)
    requires FindIssueLocation(data, id).None?
    requires base.Some? ==> Merge(base.value, patch) == base.value
    ensures Reconcile(data, c, id, patch, changed, base).next == data
  {
  }

  lemma EchoOnLoaded(once: ListCache, c: Contract, id: Id, patch: Patch, changed: Dims, base: Option<Issue>)
    requires FindIssueLocation(once, id).Some? && PatchIssueInBuckets(once, id, patch) == once
    requires !Removed(once, c, id, patch, changed)
    ensures Reconcile(once, c, id, patch, changed, base).next == once
  {
  }

  lemma KeptStaysKept(once: ListCache, c: Contract, id: Id, patch: Patch, card: Issue, changed: Dims, changed': Dims)
    requires FindIssueLocation(once, id).Some? && FindIssueLocation(once, id).value.issue == Merge(card, patch)
    requires NoMoreThan(changed', changed)
    requires ListFilterDependsOn(c, changed) ==> !IssueMatchesListFilter(AsPatch(Merge(card, patch)), c).No?
    ensures !Removed(once, c, id, patch, changed')
  {
    assert Merge(Merge(card, patch), patch) == Merge(card, patch);
  }

  /** Exactly-once counting: the second application leaves cards, order and totals alone. */
  lemma EchoIsCountedOnce(data: ListCache, c: Contract, id: Id, patch: Patch,
                          changed: Dims, base: Option<Issue>, changed': Dims, base': Option<Issue>)
    requires OneBucketPerId(data) && NoMoreThan(changed', changed)
    requires base'.Some? ==> Merge(base'.value, patch) == base'.value
    ensures var once := Reconcile(data, c, id, patch, changed, base).next;
      Reconcile(once, c, id, patch, changed', base').next == once
  {
    OutcomeShape(data, c, id, patch, changed, base);
    var once := Reconcile(data, c, id, patch, changed, base).next;
    var loc := FindIssueLocation(data, id);
    if FindIssueLocation(once, id).None? {
      EchoOnAbsent(once, c, id, patch, changed', base');
    } else {
      SecondOnLoaded(data, once, c, id, patch, changed, changed', base');
    }
  }

  lemma SecondOnLoaded(data: ListCache, once: ListCache, c: Contract, id: Id, patch: Patch,
                       changed: Dims, changed': Dims, base': Option<Issue>)
    requires OneBucketPerId(data) && NoMoreThan(changed', changed)
    requires FindIssueLocation(once, id).Some?
    requires var loc := FindIssueLocation(data, id);
      if loc.None? then forall s :: GetBucket(once, s).issues == GetBucket(data, s).issues
      else if Removed(data, c, id, patch, changed) then once == RemoveIssueFromBuckets(data, id)
      else once == PatchIssueInBuckets(data, id, patch)
    ensures Reconcile(once, c, id, patch, changed', base').next == once
  {
    var loc := FindIssueLocation(data, id);
    if loc.None? {
      SameCardsSameLocation(data, once, id);
    } else if Removed(data, c, id, patch, changed) {
      RemoveTwice(data, id);
    } else {
      PatchTwice(data, id, patch);
      KeptStaysKept(once, c, id, patch, loc.value.issue, changed, changed');
      EchoOnLoaded(once, c, id, patch, changed', base');
    }
  }
}
