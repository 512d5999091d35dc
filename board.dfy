/**
 * The task list page: the tasks grouped by project, and the search by task
 * ID applied inside each group.
 */
module Board {
  import opened Wrappers
  import opened Tasks
  import Strings

  /** `issue.projectId || 'default'`: a missing or empty project id falls into the default group. */
  function GroupKey(t: Task): (key: string)
    ensures key != ""
    ensures key == "default" <==> t.projectId.None? || t.projectId.value in {"", "default"}
  {
    if t.projectId.Some? && t.projectId.value != "" then t.projectId.value else "default"
  }

  /** The group key of every task, in list order. */
  function GroupKeys(ts: seq<Task>): (keys: seq<string>)
    ensures |keys| == |ts|
    ensures forall i :: 0 <= i < |ts| ==> keys[i] == GroupKey(ts[i])
  {
    if ts == [] then [] else GroupKeys(ts[..|ts| - 1]) + [GroupKey(ts[|ts| - 1])]
  }

  /** The tasks of `ts` whose group key is `k`, in list order. */
  function InGroup(ts: seq<Task>, k: string): seq<Task> {
    Filter(ts, t => GroupKey(t) == k)
  }

  /**
   * The `reduce` that builds `groupedIssues`: each task is pushed onto the
   * array of its key, which is created on the key's first appearance.
   * `order` is the key order `Object.entries` then reports.
   */
  method GroupByProject(issues: seq<Task>) returns (order: seq<string>, groups: map<string, seq<Task>>)
    ensures order == Distinct(GroupKeys(issues))
    ensures forall k :: k in groups <==> k in order
    ensures forall k :: k in groups ==> groups[k] == InGroup(issues, k)
  {
    order := [];
    groups := map[];
    ghost var done: seq<Task> := [];
    var i := 0;
    while i < |issues|
      invariant 0 <= i <= |issues| && done == issues[..i]
      invariant Grouped(done, order, groups)
    {
      var key := GroupKey(issues[i]);
      ghost var (order0, groups0) := (order, groups);
      if key !in groups {
        groups := groups[key := []];
        order := order + [key];
      }
      groups := groups[key := groups[key] + [issues[i]]];
      PushKeepsGrouped(done, issues[i], order0, groups0, order, groups);
      done := done + [issues[i]];
      i := i + 1;
    }
    assert done == issues;
  }

  /** `order` and `groups` are what grouping `ts` yields. */
  ghost predicate Grouped(ts: seq<Task>, order: seq<string>, groups: map<string, seq<Task>>) {
    && order == Distinct(GroupKeys(ts))
    && (forall k :: k in groups <==> k in order)
    && (forall k :: k in groups ==> groups[k] == InGroup(ts, k))
  }

  /** Pushing one task onto the array of its key, created when missing, keeps the groups those of the longer list. */
  lemma PushKeepsGrouped(ts: seq<Task>, t: Task, order: seq<string>, groups: map<string, seq<Task>>,
                         order': seq<string>, groups': map<string, seq<Task>>)
    requires Grouped(ts, order, groups)
    requires var key := GroupKey(t);
      && order' == (if key in groups then order else order + [key])
      && groups' == groups[key := (if key in groups then groups[key] else []) + [t]]
    ensures Grouped(ts + [t], order', groups')
  {
    var key := GroupKey(t);
    PushStep(ts, t);
    if key !in groups {
      UnusedKeyEmptyGroup(ts, key);
    }
  }

  /** What pushing one more task does to the key order and to the groups. */
  lemma PushStep(ts: seq<Task>, t: Task)
    ensures var d := Distinct(GroupKeys(ts));
      Distinct(GroupKeys(ts + [t])) == if GroupKey(t) in d then d else d + [GroupKey(t)]
    ensures forall k {:trigger InGroup(ts + [t], k)} :: InGroup(ts + [t], k) == InGroup(ts, k) + (if GroupKey(t) == k then [t] else [])
  {
    assert (ts + [t])[..|ts|] == ts;
    assert GroupKeys(ts + [t])[..|ts|] == GroupKeys(ts);
  }

  // ----- Every task lands in exactly one group -----

  /** A group holds exactly the tasks of the list that carry its key. */
  lemma {:induction false} InGroupMembers(ts: seq<Task>, k: string, t: Task)
    ensures t in InGroup(ts, k) <==> t in ts && GroupKey(t) == k
  {
    if ts != [] {
      var init := ts[..|ts| - 1];
      InGroupMembers(init, k, t);
      assert ts == init + [ts[|ts| - 1]];
    }
  }

  /** A key that no task carries has an empty group. */
  lemma {:induction false} UnusedKeyEmptyGroup(ts: seq<Task>, k: string)
    requires k !in GroupKeys(ts)
    ensures InGroup(ts, k) == []
  {
    if ts != [] {
      UnusedKeyEmptyGroup(ts[..|ts| - 1], k);
    }
  }

  /** The sum of the sizes of the groups named by `keys`. */
  function TotalSize(ts: seq<Task>, keys: seq<string>): nat {
    if keys == [] then 0 else TotalSize(ts, keys[..|keys| - 1]) + |InGroup(ts, keys[|keys| - 1])|
  }

  /** Appending a task leaves every other group as it was. */
  lemma {:induction false} AppendOtherGroups(ts: seq<Task>, t: Task, keys: seq<string>)
    requires GroupKey(t) !in keys
    ensures TotalSize(ts + [t], keys) == TotalSize(ts, keys)
  {
    assert (ts + [t])[..|ts|] == ts;
    if keys != [] {
      AppendOtherGroups(ts, t, keys[..|keys| - 1]);
    }
  }

  /** Appending a task grows its own group by one, once, when its key is named once. */
  lemma {:induction false} AppendOwnGroup(ts: seq<Task>, t: Task, keys: seq<string>)
    requires GroupKey(t) in keys && NoDuplicates(keys)
    ensures TotalSize(ts + [t], keys) == TotalSize(ts, keys) + 1
  {
    var init := keys[..|keys| - 1];
    assert (ts + [t])[..|ts|] == ts;
    assert keys == init + [keys[|keys| - 1]];
    if keys[|keys| - 1] == GroupKey(t) {
      AppendOtherGroups(ts, t, init);
    } else {
      AppendOwnGroup(ts, t, init);
    }
  }

  /** The group sizes add up to the number of tasks: no task is lost and none is counted twice. */
  lemma {:induction false} GroupSizesSum(ts: seq<Task>)
    ensures TotalSize(ts, Distinct(GroupKeys(ts))) == |ts|
  {
    if ts != [] {
      var init := ts[..|ts| - 1];
      var t := ts[|ts| - 1];
      assert ts == init + [t];
      var keys := GroupKeys(init);
      var d := Distinct(keys);
      GroupSizesSum(init);
      PushStep(init, t);
      DistinctFirstAppearance(keys);
      if GroupKey(t) in d {
        AppendOwnGroup(init, t, d);
      } else {
        assert (d + [GroupKey(t)])[..|d|] == d;
        AppendOtherGroups(init, t, d);
        UnusedKeyEmptyGroup(init, GroupKey(t));
      }
    }
  }

  /**
   * What the grouping promises: the groups are keyed by the distinct keys in
   * order of first appearance, every task is in the group of its own key and
   * in no other, and the group sizes sum to the number of tasks.
   */
  lemma GroupingPartitions(issues: seq<Task>, order: seq<string>, groups: map<string, seq<Task>>, i: nat, k: string)
    requires order == Distinct(GroupKeys(issues))
    requires forall k :: k in groups <==> k in order
    requires forall k :: k in groups ==> groups[k] == InGroup(issues, k)
    requires i < |issues| && k in groups
    ensures NoDuplicates(order)
    ensures GroupKey(issues[i]) in groups
    ensures issues[i] in groups[k] <==> k == GroupKey(issues[i])
    ensures TotalSize(issues, order) == |issues|
  {
    DistinctFirstAppearance(GroupKeys(issues));
    InGroupMembers(issues, k, issues[i]);
    GroupSizesSum(issues);
  }

  // ----- Search by task ID -----

  /** `!searchId || issue.id.includes(searchId)`. */
  predicate SearchKeeps(t: Task, searchId: string) {
    searchId == "" || Strings.Contains(t.id, searchId)
  }

  /** The tasks of one group that the search keeps, in group order. */
  function SearchGroup(group: seq<Task>, searchId: string): seq<Task> {
    Filter(group, t => SearchKeeps(t, searchId))
  }

  /** The search keeps a task exactly when the search text is empty or occurs in the task's id. */
  lemma {:induction false} SearchGroupMembers(group: seq<Task>, searchId: string, t: Task)
    ensures t in SearchGroup(group, searchId) <==> t in group && (searchId == "" || exists j :: Strings.OccursAt(t.id, searchId, j))
  {
    if group != [] {
      SearchGroupMembers(group[..|group| - 1], searchId, t);
      assert group == group[..|group| - 1] + [group[|group| - 1]];
    }
  }

  /** An empty search keeps the whole group, in order. */
  lemma {:induction false} EmptySearchKeepsAll(group: seq<Task>)
    ensures SearchGroup(group, "") == group
  {
    if group != [] {
      EmptySearchKeepsAll(group[..|group| - 1]);
      assert group == group[..|group| - 1] + [group[|group| - 1]];
    }
  }

  /** The empty-text test is redundant: the empty string occurs in every id, so `includes` alone keeps the same tasks. */
  lemma EmptySearchIncluded(t: Task)
    ensures Strings.Contains(t.id, "")
  {
    assert Strings.OccursAt(t.id, "", 0);
  }
}
