/** Fetches that put one result together from several requests. */
module PagedFetch {
  import opened IssueModel
  import opened CacheHelpers

  // ----- the paged Gantt fetch

  const PROJECT_GANTT_PAGE_LIMIT := 500
  const PROJECT_GANTT_MAX_ISSUES := 10_000

  /** The largest page the list endpoint answers with, whatever limit is asked for. */
  const SERVER_PAGE_CAP := 100

  function Min(a: nat, b: nat): nat { if a < b then a else b }

  /** One page of a fixed ordered list. */
  function Page<T>(list: seq<T>, cap: nat, limit: nat, offset: nat): seq<T>
  {
    if offset >= |list| then [] else list[offset..Min(offset + Min(limit, cap), |list|)]
  }

  /** How many issues have been collected when the loop stops, having reached `offset`, against a server that never
      answers short of 500 except at the end of its list of `n`. */
  function Reach(n: nat, reported: nat -> int, offset: nat): nat
    decreases PROJECT_GANTT_MAX_ISSUES - offset
  {
    var collected := offset + PROJECT_GANTT_PAGE_LIMIT;
    if offset >= PROJECT_GANTT_MAX_ISSUES then Min(offset, n)
    else if collected > n then n
    else if collected >= reported(offset) then collected
    else Reach(n, reported, collected)
  }

  /** What the loop returns from a server that cuts pages at `cap`. */
  function Fetched<T>(list: seq<T>, cap: nat, reported: nat -> int): seq<T>
  {
    var reach := if cap < PROJECT_GANTT_PAGE_LIMIT then cap else Reach(|list|, reported, 0);
    list[..Min(reach, |list|)]
  }

  /** `reported` is the total the server claims in the answer at an offset; nothing is asked of it. */
  method FetchProjectGanttIssues<T>(list: seq<T>, cap: nat, reported: nat -> int)
    returns (issues: seq<T>, requests: nat)
    ensures 1 <= requests <= 20
    ensures cap < PROJECT_GANTT_PAGE_LIMIT ==> requests == 1
    ensures issues == Fetched(list, cap, reported)
  {
    issues, requests := [], 0;
    var offset := 0;
    while offset < PROJECT_GANTT_MAX_ISSUES
      invariant offset == requests * PROJECT_GANTT_PAGE_LIMIT <= PROJECT_GANTT_MAX_ISSUES
      invariant offset > 0 ==> cap >= PROJECT_GANTT_PAGE_LIMIT && offset <= |list|
      invariant offset <= |list| && issues == list[..offset]
      invariant Reach(|list|, reported, 0) == Reach(|list|, reported, offset)
    {
      var page := Page(list, cap, PROJECT_GANTT_PAGE_LIMIT, offset);
      issues, requests := issues + page, requests + 1;
      assert issues == list[..offset + |page|];
      if |page| < PROJECT_GANTT_PAGE_LIMIT { break; }
      if |issues| >= reported(offset) { break; }
      offset := offset + PROJECT_GANTT_PAGE_LIMIT;
    }
  }

  lemma {:induction false} ReachBounds(n: nat, reported: nat -> int, offset: nat)
    requires offset <= n && offset <= PROJECT_GANTT_MAX_ISSUES && offset % PROJECT_GANTT_PAGE_LIMIT == 0
    ensures offset <= Reach(n, reported, offset) <= Min(n, PROJECT_GANTT_MAX_ISSUES)
    decreases PROJECT_GANTT_MAX_ISSUES - offset
  {
    var collected := offset + PROJECT_GANTT_PAGE_LIMIT;
    if offset < PROJECT_GANTT_MAX_ISSUES && collected <= n && collected < reported(offset) {
      ReachBounds(n, reported, collected);
    }
  }

  /** No answer claims the list is complete while issues the loop would still reach are missing. */
  ghost predicate NeverUnderstates(n: nat, reported: nat -> int, offset: nat)
  {
    forall k: nat ::
      (offset <= k && k % PROJECT_GANTT_PAGE_LIMIT == 0
        && k + PROJECT_GANTT_PAGE_LIMIT < Min(n, PROJECT_GANTT_MAX_ISSUES))
      ==> k + PROJECT_GANTT_PAGE_LIMIT < reported(k)
  }

  /** Against a server that honours the page limit the loop returns the first 10,000 issues exactly when no reported
      total understates; a total that is too large, or jumps, does no harm. */
  lemma {:induction false} GanttIsCompleteExactly(n: nat, reported: nat -> int, offset: nat)
    requires offset <= n && offset <= PROJECT_GANTT_MAX_ISSUES && offset % PROJECT_GANTT_PAGE_LIMIT == 0
    ensures Reach(n, reported, offset) == Min(n, PROJECT_GANTT_MAX_ISSUES) <==> NeverUnderstates(n, reported, offset)
    decreases PROJECT_GANTT_MAX_ISSUES - offset
  {
    var collected := offset + PROJECT_GANTT_PAGE_LIMIT;
    if offset < PROJECT_GANTT_MAX_ISSUES && collected <= n {
      if collected < reported(offset) {
        GanttIsCompleteExactly(n, reported, collected);
        NextOffset(n, reported, offset);
      } else if collected < Min(n, PROJECT_GANTT_MAX_ISSUES) {
        assert !(collected < reported(offset));
        assert !NeverUnderstates(n, reported, offset);
      } else {
        assert NeverUnderstates(n, reported, offset);
      }
    }
  }

  lemma NextOffset(n: nat, reported: nat -> int, offset: nat)
    requires offset % PROJECT_GANTT_PAGE_LIMIT == 0 && offset + PROJECT_GANTT_PAGE_LIMIT < reported(offset)
    ensures NeverUnderstates(n, reported, offset) <==> NeverUnderstates(n, reported, offset + PROJECT_GANTT_PAGE_LIMIT)
  {
    forall k: nat | offset <= k < offset + PROJECT_GANTT_PAGE_LIMIT && k % PROJECT_GANTT_PAGE_LIMIT == 0
      ensures k == offset
    {
    }
  }

  ghost predicate Honest(n: nat, reported: nat -> int) { forall k :: reported(k) == n }

  /** With honest totals everything up to 10,000 arrives exactly when the server's page cap covers the page size
      asked for, or the whole list fits one capped page. */
  lemma HonestFetchIsCompleteExactly<T>(list: seq<T>, cap: nat, reported: nat -> int)
    requires Honest(|list|, reported)
    ensures Fetched(list, cap, reported) <= list
    ensures |Fetched(list, cap, reported)| == Min(|list|, 10_000) <==> cap >= 500 || |list| <= cap
  {
    GanttIsCompleteExactly(|list|, reported, 0);
  }

  /** The server of this repository caps a page at 100, so a project's 101st scheduled issue never arrives. */
  lemma ThisServerStopsAtOnePage<T>(list: seq<T>, reported: nat -> int)
    requires Honest(|list|, reported) && |list| > 100
    ensures Fetched(list, SERVER_PAGE_CAP, reported) == list[..100] != list
  {
    assert |list[..100]| != |list|;
  }

  // ----- the union behind "All my issues"

  /** The issues of a list whose id did not come up before. */
  function FirstSeen(l: seq<Issue>): seq<Issue>
  {
    if l == [] then [] else
      var init, last := l[..|l| - 1], l[|l| - 1];
      FirstSeen(init) + (if HasId(init, last.id) then [] else [last])
  }

  function Joined(pages: seq<seq<Issue>>): seq<Issue>
  {
    if pages == [] then [] else Joined(pages[..|pages| - 1]) + pages[|pages| - 1]
  }

  /** The merge for one status over the pages of the three relations. */
  method MergeFirstPages(pages: seq<seq<Issue>>) returns (merged: Bucket)
    ensures merged == Bucket(FirstSeen(Joined(pages)), |FirstSeen(Joined(pages))|)
  {
    var seen: set<Id> := {};
    var issues: seq<Issue> := [];
    ghost var all: seq<Issue> := [];
    for p := 0 to |pages|
      invariant all == Joined(pages[..p])
      invariant seen == set i | 0 <= i < |all| :: all[i].id
      invariant issues == FirstSeen(all)
    {
      ghost var before := all;
      for n := 0 to |pages[p]|
        invariant all == before + pages[p][..n]
        invariant seen == set i | 0 <= i < |all| :: all[i].id
        invariant issues == FirstSeen(all)
      {
        var issue := pages[p][n];
        ghost var next := all + [issue];
        assert next[..|next| - 1] == all;
        seen, issues := AddIssue(seen, issues, all, issue);
        all := next;
        assert pages[p][..n + 1] == pages[p][..n] + [issue];
      }
      assert pages[p][..|pages[p]|] == pages[p];
      assert pages[..p + 1][..p] == pages[..p];
    }
    assert pages[..|pages|] == pages;
    merged := Bucket(issues, |issues|);
  }

  /** One turn of the inner loop. */
  method AddIssue(seen: set<Id>, issues: seq<Issue>, ghost all: seq<Issue>, issue: Issue)
    returns (seen': set<Id>, issues': seq<Issue>)
    requires seen == set i | 0 <= i < |all| :: all[i].id
    requires issues == FirstSeen(all)
    ensures seen' == set i | 0 <= i < |all + [issue]| :: (all + [issue])[i].id
    ensures issues' == FirstSeen(all + [issue])
  {
    seen', issues' := seen, issues;
    assert (all + [issue])[..|all|] == all;
    if issue.id !in seen {
      seen', issues' := seen + {issue.id}, issues + [issue];
    }
    assert forall i :: 0 <= i < |all| ==> (all + [issue])[i] == all[i];
    assert (all + [issue])[|all|] == issue;
  }

  /** An issue is in the union exactly as its first copy. */
  lemma {:induction false} UnionIsFirstCopies(l: seq<Issue>, issue: Issue)
    ensures issue in FirstSeen(l) <==> exists i :: 0 <= i < |l| && l[i] == issue && !HasId(l[..i], issue.id)
  {
    if l != [] {
      var init, last := l[..|l| - 1], l[|l| - 1];
      UnionIsFirstCopies(init, issue);
      forall i | 0 <= i < |init| ensures l[..i] == init[..i] && l[i] == init[i] {
      }
      if issue == last && !HasId(init, last.id) {
        assert l[|init|] == issue && l[..|init|] == init;
      }
    }
  }

  /** No issue twice, none lost. */
  lemma {:induction false} UnionIsDistinct(l: seq<Issue>)
    ensures DistinctIds(FirstSeen(l))
    ensures forall id :: HasId(FirstSeen(l), id) <==> HasId(l, id)
  {
    if l != [] {
      var init, last := l[..|l| - 1], l[|l| - 1];
      UnionIsDistinct(init);
      assert l == init + [last];
      HasIdSnoc(init, last);
      HasIdSnoc(FirstSeen(init), last);
      if HasId(init, last.id) {
        assert FirstSeen(l) == FirstSeen(init);
      } else {
        assert !HasId(FirstSeen(init), last.id);
      }
    }
  }

  lemma HasIdSnoc(l: seq<Issue>, x: Issue)
    ensures forall id :: HasId(l + [x], id) <==> HasId(l, id) || x.id == id
  {
    forall id ensures HasId(l + [x], id) <==> HasId(l, id) || x.id == id {
      assert (l + [x])[|l|] == x;
      if HasId(l, id) {
        var i :| 0 <= i < |l| && l[i].id == id;
        assert (l + [x])[i].id == id;
      }
    }
  }

  /** A page keeps its order behind the pages merged before it. */
  lemma {:induction false} UnionExtends(a: seq<Issue>, b: seq<Issue>)
    ensures FirstSeen(a) <= FirstSeen(a + b)
  {
    if b == [] {
      assert a + b == a;
    } else {
      UnionExtends(a, b[..|b| - 1]);
      assert (a + b)[..|a + b| - 1] == a + b[..|b| - 1];
    }
  }

  // ----- children of many parents, fetched in chunks

  const CHILDREN_BY_PARENTS_CHUNK_SIZE := 200

  function ChildrenOf(issues: seq<Issue>, parents: seq<Id>): seq<Issue>
  {
    if issues == [] then [] else
      var last := issues[|issues| - 1];
      ChildrenOf(issues[..|issues| - 1], parents) +
      (if last.parentId.Some? && last.parentId.value in parents then [last] else [])
  }

  function Concat<T>(chunks: seq<seq<T>>): seq<T>
  {
    if chunks == [] then [] else Concat(chunks[..|chunks| - 1]) + chunks[|chunks| - 1]
  }

  /** Every request names between one and 200 parents, and together they name them all, in order. */
  method Chunks(parentIds: seq<Id>) returns (chunks: seq<seq<Id>>)
    ensures Concat(chunks) == parentIds
    ensures forall c :: c in chunks ==> 0 < |c| <= 200
    ensures forall k :: 0 <= k < |chunks| - 1 ==> |chunks[k]| == 200
  {
    chunks := [];
    var i := 0;
    while i < |parentIds|
      invariant 0 <= i
      invariant Concat(chunks) == parentIds[..Min(i, |parentIds|)]
      invariant forall c :: c in chunks ==> 0 < |c| <= CHILDREN_BY_PARENTS_CHUNK_SIZE
      invariant i < |parentIds| ==> forall k :: 0 <= k < |chunks| ==> |chunks[k]| == CHILDREN_BY_PARENTS_CHUNK_SIZE
      invariant forall k :: 0 <= k < |chunks| - 1 ==> |chunks[k]| == CHILDREN_BY_PARENTS_CHUNK_SIZE
    {
      var chunk := parentIds[i..Min(i + CHILDREN_BY_PARENTS_CHUNK_SIZE, |parentIds|)];
      assert (chunks + [chunk])[..|chunks|] == chunks;
      chunks := chunks + [chunk];
      i := i + CHILDREN_BY_PARENTS_CHUNK_SIZE;
    }
  }

  /** The answers of the server, which holds `issues`, one per chunk. */
  function Responses(issues: seq<Issue>, chunks: seq<seq<Id>>): seq<seq<Issue>>
  {
    if chunks == [] then [] else
      Responses(issues, chunks[..|chunks| - 1]) + [ChildrenOf(issues, chunks[|chunks| - 1])]
  }

  type Groups = map<Id, seq<Issue>>

  function Group(grouped: Groups, issue: Issue): Groups
  {
    if issue.parentId.None? then grouped else
      var p := issue.parentId.value;
      grouped[p := if p in grouped then grouped[p] + [issue] else [issue]]
  }

  function Grouped(issues: seq<Issue>): Groups
  {
    if issues == [] then map[] else Group(Grouped(issues[..|issues| - 1]), issues[|issues| - 1])
  }

  lemma GroupedSnoc(issues: seq<Issue>, issue: Issue)
    ensures Grouped(issues + [issue]) == Group(Grouped(issues), issue)
  {
    assert (issues + [issue])[..|issues|] == issues;
  }

  method GroupByParent(responses: seq<seq<Issue>>) returns (grouped: Groups)
    ensures grouped == Grouped(Concat(responses))
  {
    grouped := map[];
    ghost var all: seq<Issue> := [];
    for r := 0 to |responses|
      invariant all == Concat(responses[..r]) && grouped == Grouped(all)
    {
      assert responses[..r + 1][..r] == responses[..r];
      grouped := GroupResponse(grouped, all, responses[r]);
      all := all + responses[r];
    }
    assert responses[..|responses|] == responses;
  }

  /** The inner loop, over the issues of one response. */
  method GroupResponse(before: Groups, ghost seen: seq<Issue>, response: seq<Issue>) returns (grouped: Groups)
    requires before == Grouped(seen)
    ensures grouped == Grouped(seen + response)
  {
    grouped := before;
    assert seen + response[..0] == seen;
    for n := 0 to |response|
      invariant grouped == Grouped(seen + response[..n])
    {
      var issue := response[n];
      GroupedSnoc(seen + response[..n], issue);
      assert seen + response[..n + 1] == (seen + response[..n]) + [issue];
      if issue.parentId.None? { continue; }
      var parent := issue.parentId.value;
      if parent in grouped {
        grouped := grouped[parent := grouped[parent] + [issue]];
      } else {
        grouped := grouped[parent := [issue]];
      }
    }
    assert response[..|response|] == response;
  }

  lemma {:induction false} GroupedIs(issues: seq<Issue>, p: Id)
    ensures p in Grouped(issues) <==> ChildrenOf(issues, [p]) != []
    ensures p in Grouped(issues) ==> Grouped(issues)[p] == ChildrenOf(issues, [p])
  {
    if issues != [] { GroupedIs(issues[..|issues| - 1], p); }
  }

  lemma {:induction false} ChildrenOfConcat(a: seq<Issue>, b: seq<Issue>, parents: seq<Id>)
    ensures ChildrenOf(a + b, parents) == ChildrenOf(a, parents) + ChildrenOf(b, parents)
  {
    if b == [] {
      assert a + b == a;
    } else {
      assert (a + b)[..|a + b| - 1] == a + b[..|b| - 1];
      ChildrenOfConcat(a, b[..|b| - 1], parents);
    }
  }

  lemma ChildrenOfSnoc(issues: seq<Issue>, last: Issue, parents: seq<Id>)
    ensures ChildrenOf(issues + [last], parents) ==
      ChildrenOf(issues, parents) + (if last.parentId.Some? && last.parentId.value in parents then [last] else [])
  {
    assert (issues + [last])[..|issues|] == issues;
  }

  lemma {:induction false} ChildrenOfTwice(issues: seq<Issue>, chunk: seq<Id>, p: Id)
    ensures ChildrenOf(ChildrenOf(issues, chunk), [p]) == if p in chunk then ChildrenOf(issues, [p]) else []
  {
    if issues != [] {
      var init, last := issues[..|issues| - 1], issues[|issues| - 1];
      ChildrenOfTwice(init, chunk, p);
      ChildrenOfSnoc(ChildrenOf(init, chunk), last, [p]);
      if last.parentId.Some? && last.parentId.value in chunk {
        assert ChildrenOf(issues, chunk) == ChildrenOf(init, chunk) + [last];
      } else {
        assert ChildrenOf(issues, chunk) == ChildrenOf(init, chunk);
      }
    }
  }

  ghost predicate Distinct(ids: seq<Id>) { forall i, j :: 0 <= i < j < |ids| ==> ids[i] != ids[j] }

  lemma NotInBoth(a: seq<Id>, b: seq<Id>, p: Id)
    requires Distinct(a + b)
    ensures p !in a || p !in b
  {
    forall i, j | 0 <= i < |a| && 0 <= j < |b| ensures a[i] != b[j] {
      assert (a + b)[i] == a[i] && (a + b)[|a| + j] == b[j];
    }
  }

  lemma {:induction false} ChunkedAnswers(issues: seq<Issue>, chunks: seq<seq<Id>>, p: Id)
    requires Distinct(Concat(chunks))
    ensures ChildrenOf(Concat(Responses(issues, chunks)), [p]) == if p in Concat(chunks)
      then ChildrenOf(issues, [p]) else []
  {
    if chunks != [] {
      var init, last := chunks[..|chunks| - 1], chunks[|chunks| - 1];
      var front := Concat(init);
      assert Concat(chunks) == front + last;
      forall i, j | 0 <= i < j < |front| ensures front[i] != front[j] {
        assert (front + last)[i] == front[i] && (front + last)[j] == front[j];
      }
      ChunkedAnswers(issues, init, p);
      var rs := Responses(issues, init);
      assert (rs + [ChildrenOf(issues, last)])[..|rs|] == rs;
      ChildrenOfConcat(Concat(rs), ChildrenOf(issues, last), [p]);
      ChildrenOfTwice(issues, last, p);
      NotInBoth(front, last, p);
    }
  }

  /** Chunking is invisible: every asked-for parent gets exactly its children, in the server's order. */
  lemma ChunkingIsInvisible(issues: seq<Issue>, chunks: seq<seq<Id>>, p: Id)
    requires Distinct(Concat(chunks))
    ensures var grouped := Grouped(Concat(Responses(issues, chunks)));
      && (p in grouped <==> p in Concat(chunks) && ChildrenOf(issues, [p]) != [])
      && (p in grouped ==> grouped[p] == ChildrenOf(issues, [p]))
  {
    ChunkedAnswers(issues, chunks, p);
    GroupedIs(Concat(Responses(issues, chunks)), p);
  }

  // ----- seeding the per-parent caches

  function Hydrated(cache: Groups, grouped: Groups): Groups
  {
    cache + map p | p in grouped && (p !in cache || cache[p] == []) :: grouped[p]
  }

  lemma SeedOne(cache: Groups, done: Groups, parent: Id, children: seq<Issue>)
    requires parent !in done
    ensures var next := Hydrated(cache, done);
      Hydrated(cache, done[parent := children]) ==
        if parent !in next || next[parent] == [] then next[parent := children] else next
  {
  }

  /** Writes the groups one by one, in whatever order the map yields them. */
  method Hydrate(cache: Groups, grouped: Groups) returns (next: Groups)
    ensures next == Hydrated(cache, grouped)
  {
    next := cache;
    var todo := grouped.Keys;
    while todo != {}
      invariant todo <= grouped.Keys
      invariant next == Hydrated(cache, map p | p in grouped && p !in todo :: grouped[p])
    {
      var parent :| parent in todo;
      ghost var done := map p | p in grouped && p !in todo :: grouped[p];
      SeedOne(cache, done, parent, grouped[parent]);
      if parent !in next || next[parent] == [] {
        next := next[parent := grouped[parent]];
      }
      todo := todo - {parent};
      assert done[parent := grouped[parent]] == map p | p in grouped && p !in todo :: grouped[p];
    }
    assert (map p | p in grouped && p !in todo :: grouped[p]) == grouped;
  }

  /** The whole fetch, for one parent: what another query already put there stays, an asked-for parent without loaded
      children gets exactly its children, and no other entry appears. */
  lemma HydrationFillsExactly(cache: Groups, issues: seq<Issue>, chunks: seq<seq<Id>>, p: Id)
    requires Distinct(Concat(chunks))
    ensures var after := Hydrated(cache, Grouped(Concat(Responses(issues, chunks))));
      var children := ChildrenOf(issues, [p]);
      if p in cache && cache[p] != [] then p in after && after[p] == cache[p]
      else if p in Concat(chunks) && children != [] then p in after && after[p] == children
      else (p in after <==> p in cache) && (p in cache ==> after[p] == [])
  {
    ChunkingIsInvisible(issues, chunks, p);
  }
}
