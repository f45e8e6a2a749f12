// Whether a channel still waits for the task tree of a finished user conversation.

module ChannelClosing {
  import opened Base

  type TaskId = nat
  type ChannelId = nat

  datatype Task = Task(id: TaskId, parent: Option<TaskId>, origin: Option<ChannelId>, terminal: bool)

  /** What the process backend says about a task: the number of its sessions, or an error. */
  datatype Sessions = LookupFailed | Live(count: nat)

  predicate IsUserRoot(task: Task, channel: ChannelId) {
    task.parent == None && task.origin == Some(channel)
  }

  ghost predicate Child(tasks: seq<Task>, parent: TaskId, child: TaskId) {
    exists t :: t in tasks && t.id == child && t.parent == Some(parent)
  }

  /** `path` goes down parent links from `root` to its last element. */
  ghost predicate Descends(tasks: seq<Task>, root: TaskId, path: seq<TaskId>) {
    && path != [] && path[0] == root
    && forall i :: 0 <= i < |path| - 1 ==> Child(tasks, path[i], path[i + 1])
  }

  ghost predicate InTree(tasks: seq<Task>, root: TaskId, id: TaskId) {
    exists path :: Descends(tasks, root, path) && path[|path| - 1] == id
  }

  ghost predicate ClosedUnderChildren(tasks: seq<Task>, tree: set<TaskId>) {
    forall t :: t in tasks && t.parent.Some? && t.parent.value in tree ==> t.id in tree
  }

  lemma ExtendPath(tasks: seq<Task>, root: TaskId, parent: TaskId, child: TaskId)
    requires InTree(tasks, root, parent) && Child(tasks, parent, child)
    ensures InTree(tasks, root, child)
  {
    var path :| Descends(tasks, root, path) && path[|path| - 1] == parent;
    var longer := path + [child];
    assert forall i :: 0 <= i < |longer| - 1 ==> Child(tasks, longer[i], longer[i + 1]);
    assert Descends(tasks, root, longer) && longer[|longer| - 1] == child;
  }

  lemma {:induction false} ClosedContainsTree(tasks: seq<Task>, root: TaskId, tree: set<TaskId>, path: seq<TaskId>)
    requires root in tree && ClosedUnderChildren(tasks, tree) && Descends(tasks, root, path)
    ensures path[|path| - 1] in tree
    decreases |path|
  {
    if |path| > 1 {
      var shorter := path[..|path| - 1];
      assert Descends(tasks, root, shorter) by {
        assert forall i :: 0 <= i < |shorter| - 1 ==> Child(tasks, path[i], path[i + 1]);
      }
      ClosedContainsTree(tasks, root, tree, shorter);
      assert Child(tasks, path[|path| - 2], path[|path| - 1]);
    }
  }

  /** The tree of `root`, grown pass by pass until a pass adds nothing. The tasks may form any
      graph, cycles and repeated ids included. */
  method GrowTree(tasks: seq<Task>, root: TaskId) returns (tree: set<TaskId>)
    ensures forall id :: id in tree <==> InTree(tasks, root, id)
  {
    tree := {root};
    ghost var ids := {root} + set t | t in tasks :: t.id;
    assert Descends(tasks, root, [root]);
    var before := 0;
    while |tree| != before
      invariant root in tree && tree <= ids
      invariant before <= |tree|
      invariant forall id :: id in tree ==> InTree(tasks, root, id)
      invariant |tree| == before ==> ClosedUnderChildren(tasks, tree)
      decreases |ids| - before
    {
      before := |tree|;
      ghost var start := tree;
      for i := 0 to |tasks|
        invariant start <= tree <= ids
        invariant forall id :: id in tree ==> InTree(tasks, root, id)
        invariant forall k :: 0 <= k < i && tasks[k].parent.Some? && tasks[k].parent.value in start ==> tasks[k].id in tree
      {
        var task := tasks[i];
        if task.parent.Some? && task.parent.value in tree {
          assert task in tasks;
          ExtendPath(tasks, root, task.parent.value, task.id);
          tree := tree + {task.id};
        }
      }
      SubsetSizes(start, tree);
      SubsetSizes(start, ids);
    }
    forall id | InTree(tasks, root, id) ensures id in tree {
      var path :| Descends(tasks, root, path) && path[|path| - 1] == id;
      ClosedContainsTree(tasks, root, tree, path);
    }
  }

  lemma {:induction false} SubsetSizes(a: set<TaskId>, b: set<TaskId>)
    requires a <= b
    ensures |a| <= |b| && (|a| == |b| ==> a == b)
  {
    assert b == a + (b - a);
    assert |b| == |a| + |b - a|;
  }

  ghost predicate Busy(id: TaskId, tasks: seq<Task>, pending: set<TaskId>, backend: Option<TaskId -> Sessions>) {
    || (exists t :: t in tasks && t.id == id && !t.terminal)
    || id in pending
    || (backend.Some? && backend.value(id) != Live(0))
  }

  /** The answer of `channel_is_closing`: some finished user root of the channel has, in its
      tree of any depth, a task that still runs, waits, or holds a session. */
  method ChannelIsClosing(channel: ChannelId, tasks: seq<Task>, pending: set<TaskId>, backend: Option<TaskId -> Sessions>)
    returns (closing: bool)
    ensures closing <==>
      exists root, id :: root in tasks && IsUserRoot(root, channel) && root.terminal
                         && InTree(tasks, root.id, id) && Busy(id, tasks, pending, backend)
  {
    for i := 0 to |tasks|
      invariant forall k, id ::
        0 <= k < i && IsUserRoot(tasks[k], channel) && tasks[k].terminal && InTree(tasks, tasks[k].id, id) ==>
          !Busy(id, tasks, pending, backend)
    {
      var root := tasks[i];
      if IsUserRoot(root, channel) && root.terminal {
        var tree := GrowTree(tasks, root.id);
        var busy := TreeIsBusy(tree, tasks, pending, backend);
        if busy {
          return true;
        }
      }
    }
    return false;
  }

  method TreeIsBusy(tree: set<TaskId>, tasks: seq<Task>, pending: set<TaskId>, backend: Option<TaskId -> Sessions>)
    returns (busy: bool)
    ensures busy <==> exists id :: id in tree && Busy(id, tasks, pending, backend)
  {
    busy := || (exists k :: 0 <= k < |tasks| && tasks[k].id in tree && !tasks[k].terminal)
            || (exists id :: id in pending && id in tree)
            || (backend.Some? && exists id :: id in tree && backend.value(id) != Live(0));
    if busy {
      if k :| 0 <= k < |tasks| && tasks[k].id in tree && !tasks[k].terminal {
        assert tasks[k] in tasks && Busy(tasks[k].id, tasks, pending, backend);
      } else if id :| id in pending && id in tree {
        assert Busy(id, tasks, pending, backend);
      } else {
        var id :| id in tree && backend.value(id) != Live(0);
        assert Busy(id, tasks, pending, backend);
      }
    } else {
      forall id | id in tree ensures !Busy(id, tasks, pending, backend) {
        forall t | t in tasks && t.id == id ensures t.terminal {
          var k :| 0 <= k < |tasks| && tasks[k] == t;
        }
      }
    }
  }
}
