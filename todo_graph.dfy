/** The graph the previous/next links span over the todo table, and the facts about it that the
    dependency operations rely on. A link counts only when it is truthy (Some id, id != 0). */
module TodoGraph {
  import opened Wrappers
  import opened TodoRepository

  /** `link` is set and points at `b`. */
  predicate LinksTo(link: Option<int>, b: int) {
    IsSet(link) && link.value == b
  }

  /** The stored todo `a` links to `b` through its previous or its next field. */
  ghost predicate Edge(todos: map<int, Todo>, a: int, b: int) {
    a in todos && (LinksTo(todos[a].previousId, b) || LinksTo(todos[a].nextId, b))
  }

  /** A non-empty sequence of ids, each linked to the one after it. */
  ghost predicate IsPath(todos: map<int, Todo>, p: seq<int>) {
    |p| >= 1 && forall i | 0 <= i < |p| - 1 :: Edge(todos, p[i], p[i + 1])
  }

  /** No path that starts at `from` ever meets `to`. */
  ghost predicate Unreachable(todos: map<int, Todo>, from: int, to: int) {
    forall p | IsPath(todos, p) && p[0] == from :: to !in p
  }

  /** No path of one or more links returns to where it started. */
  ghost predicate Acyclic(todos: map<int, Todo>) {
    forall p | IsPath(todos, p) && |p| >= 2 :: p[0] != p[|p| - 1]
  }

  /** Every set link of a stored todo in `ns` points into `vs`. */
  ghost predicate LinksInside(todos: map<int, Todo>, ns: set<int>, vs: set<int>) {
    forall n | n in ns && n in todos ::
      && (IsSet(todos[n].previousId) ==> todos[n].previousId.value in vs)
      && (IsSet(todos[n].nextId) ==> todos[n].nextId.value in vs)
  }

  /** No set link of a stored todo in `vs` leaves `vs`. */
  ghost predicate Closed(todos: map<int, Todo>, vs: set<int>) {
    LinksInside(todos, vs, vs)
  }

  /** A path that starts inside a closed set never leaves it. */
  lemma {:induction false} PathStaysInClosed(todos: map<int, Todo>, vs: set<int>, p: seq<int>)
    requires Closed(todos, vs) && IsPath(todos, p) && p[0] in vs
    ensures forall i | 0 <= i < |p| :: p[i] in vs
  {
    if |p| > 1 {
      var q := p[..|p| - 1];
      assert IsPath(todos, q) by {
        forall i | 0 <= i < |q| - 1 ensures Edge(todos, q[i], q[i + 1]) {
          assert q[i] == p[i] && q[i + 1] == p[i + 1];
        }
      }
      PathStaysInClosed(todos, vs, q);
      assert p[|p| - 2] == q[|q| - 1];
      assert Edge(todos, p[|p| - 2], p[|p| - 1]);
      forall i | 0 <= i < |p| ensures p[i] in vs {
        if i < |p| - 1 {
          assert p[i] == q[i];
        }
      }
    }
  }

  /** A contiguous piece of a path is a path. */
  lemma SubPath(todos: map<int, Todo>, p: seq<int>, i: int, j: int)
    requires IsPath(todos, p) && 0 <= i < j <= |p|
    ensures IsPath(todos, p[i..j])
  {
    var q := p[i..j];
    forall k | 0 <= k < |q| - 1 ensures Edge(todos, q[k], q[k + 1]) {
      assert q[k] == p[i + k] && q[k + 1] == p[i + k + 1];
    }
  }

  /** Two paths that meet glue into one. */
  lemma Glue(todos: map<int, Todo>, p: seq<int>, q: seq<int>)
    requires IsPath(todos, p) && IsPath(todos, q) && p[|p| - 1] == q[0]
    ensures IsPath(todos, p + q[1..])
  {
    var c := p + q[1..];
    forall k | 0 <= k < |c| - 1 ensures Edge(todos, c[k], c[k + 1]) {
      if k < |p| - 1 {
        assert c[k] == p[k] && c[k + 1] == p[k + 1];
      } else {
        assert c[k] == q[k - |p| + 1] && c[k + 1] == q[k - |p| + 2];
      }
    }
  }

  /** A path of `todos[t := nt]` whose every step either leaves from a todo other than `t` or is
      an old link is a path of `todos`. */
  lemma OldPath(todos: map<int, Todo>, t: int, nt: Todo, p: seq<int>)
    requires IsPath(todos[t := nt], p)
    requires forall k | 0 <= k < |p| - 1 :: p[k] != t || Edge(todos, p[k], p[k + 1])
    ensures IsPath(todos, p)
  {
    forall k | 0 <= k < |p| - 1 ensures Edge(todos, p[k], p[k + 1]) {
      if p[k] != t {
        assert Edge(todos[t := nt], p[k], p[k + 1]);
      }
    }
  }

  /** Replacing the row of `t` by one whose links are the old ones or point at `d` keeps the
      graph acyclic, provided no path from `d` reaches `t`. This is what a successful
      set_dependency relies on. */
  lemma {:induction false} LinkKeepsAcyclic(todos: map<int, Todo>, t: int, d: int, nt: Todo)
    requires Acyclic(todos) && t in todos && d != t
    requires Unreachable(todos, d, t)
    requires nt.previousId == todos[t].previousId || nt.previousId == Some(d)
    requires nt.nextId == todos[t].nextId || nt.nextId == Some(d)
    ensures Acyclic(todos[t := nt])
  {
    var nts := todos[t := nt];
    forall p | IsPath(nts, p) && |p| >= 2 ensures p[0] != p[|p| - 1] {
      NoNewCycle(todos, t, d, nt, p);
    }
  }

  /** The first position of `t` among the ids a path step leaves from. */
  lemma FirstLeaving(p: seq<int>, t: int) returns (k: int)
    requires exists j | 0 <= j < |p| - 1 :: p[j] == t
    ensures 0 <= k < |p| - 1 && p[k] == t
    ensures forall m | 0 <= m < k :: p[m] != t
  {
    k := 0;
    while p[k] != t
      invariant 0 <= k < |p| - 1
      invariant forall m | 0 <= m < k :: p[m] != t
      invariant exists j | k <= j < |p| - 1 :: p[j] == t
      decreases |p| - k
    {
      k := k + 1;
    }
  }

  /** The last position of `t` among the ids a path step leaves from. */
  lemma LastLeaving(p: seq<int>, t: int) returns (k: int)
    requires exists j | 0 <= j < |p| - 1 :: p[j] == t
    ensures 0 <= k < |p| - 1 && p[k] == t
    ensures forall m | k < m < |p| - 1 :: p[m] != t
  {
    k := |p| - 2;
    while p[k] != t
      invariant 0 <= k <= |p| - 2
      invariant forall m | k < m < |p| - 1 :: p[m] != t
      invariant exists j | 0 <= j <= k :: p[j] == t
      decreases k
    {
      k := k - 1;
    }
  }

  /** A cycle through `t` yields a cycle that starts and ends at `t` and does not meet `t` in
      between: from the last departure from `t` round to the first arrival at `t`. */
  lemma {:induction false} CycleAt(g: map<int, Todo>, p: seq<int>, t: int) returns (c: seq<int>)
    requires IsPath(g, p) && |p| >= 2 && p[0] == p[|p| - 1]
    requires exists j | 0 <= j < |p| - 1 :: p[j] == t
    ensures IsPath(g, c) && |c| >= 2 && c[0] == t && c[|c| - 1] == t
    ensures forall m | 1 <= m < |c| - 1 :: c[m] != t
  {
    var n := |p|;
    var k1 := FirstLeaving(p, t);
    var k2 := LastLeaving(p, t);
    SubPath(g, p, k2, n);
    SubPath(g, p, 0, k1 + 1);
    var z := p[k2..];
    var w := p[..k1 + 1];
    assert z[|z| - 1] == p[0] == w[0];
    Glue(g, z, w);
    c := z + w[1..];
    assert |c| == n - k2 + k1;
    forall m | 1 <= m < |c| - 1 ensures c[m] != t {
      if m < |z| {
        assert c[m] == p[k2 + m];
        if k2 + m == n - 1 {
          assert k1 > 0;
        }
      } else {
        assert c[m] == p[m - |z| + 1];
      }
    }
  }

  /** A path of the new table that returns to its start would be a cycle of the old table or
      an old path from `d` back to `t`; neither exists. */
  lemma {:induction false} NoNewCycle(todos: map<int, Todo>, t: int, d: int, nt: Todo, p: seq<int>)
    requires Acyclic(todos) && t in todos && d != t
    requires Unreachable(todos, d, t)
    requires nt.previousId == todos[t].previousId || nt.previousId == Some(d)
    requires nt.nextId == todos[t].nextId || nt.nextId == Some(d)
    requires IsPath(todos[t := nt], p) && |p| >= 2
    ensures p[0] != p[|p| - 1]
  {
    var nts := todos[t := nt];
    if p[0] == p[|p| - 1] {
      if forall k | 0 <= k < |p| - 1 :: p[k] != t {
        OldPath(todos, t, nt, p);
        assert false;
      } else {
        var c := CycleAt(nts, p, t);
        if c[1] == d {
          SubPath(nts, c, 1, |c|);
          var e := c[1..];
          forall k | 0 <= k < |e| - 1 ensures e[k] != t || Edge(todos, e[k], e[k + 1]) {
            assert e[k] == c[k + 1];
          }
          OldPath(todos, t, nt, e);
          assert false;
        } else {
          assert false;
        }
      }
    }
  }

  /** Replacing the row of `t` by one whose links are the old ones or unset keeps the graph
      acyclic: no link is added. */
  lemma UnlinkKeepsAcyclic(todos: map<int, Todo>, t: int, nt: Todo)
    requires Acyclic(todos) && t in todos
    requires nt.previousId == todos[t].previousId || nt.previousId.None?
    requires nt.nextId == todos[t].nextId || nt.nextId.None?
    ensures Acyclic(todos[t := nt])
  {
    forall p | IsPath(todos[t := nt], p) && |p| >= 2 ensures p[0] != p[|p| - 1] {
      forall k | 0 <= k < |p| - 1 ensures p[k] != t || Edge(todos, p[k], p[k + 1]) {
        assert Edge(todos[t := nt], p[k], p[k + 1]);
      }
      OldPath(todos, t, nt, p);
    }
  }

  /** Ids that are pairwise distinct. */
  ghost predicate Distinct(p: seq<int>) {
    forall i, j | 0 <= i < j < |p| :: p[i] != p[j]
  }

  /** Each id of `p` is stored and its `kind` link points at the next id. */
  ghost predicate Follows(todos: map<int, Todo>, kind: LinkKind, p: seq<int>) {
    forall i | 0 <= i < |p| - 1 :: p[i] in todos && LinksTo(LinkOf(todos[p[i]], kind), p[i + 1])
  }

  /** The walk ends on an id whose `kind` link points back into the walk. */
  ghost predicate Loops(todos: map<int, Todo>, kind: LinkKind, p: seq<int>)
    requires |p| >= 1
  {
    var last := p[|p| - 1];
    last in todos && IsSet(LinkOf(todos[last], kind)) && LinkOf(todos[last], kind).value in p
  }

  /** The walk can go no further: its last id is not stored, has no `kind` link, or loops. */
  ghost predicate Stopped(todos: map<int, Todo>, kind: LinkKind, p: seq<int>)
    requires |p| >= 1
  {
    var last := p[|p| - 1];
    last !in todos || !IsSet(LinkOf(todos[last], kind)) || Loops(todos, kind, p)
  }

  /** The complete walk from `start` along `kind` links, stopping at the first repeat. */
  ghost predicate WalkFrom(todos: map<int, Todo>, kind: LinkKind, start: int, p: seq<int>) {
    |p| >= 1 && p[0] == start && Distinct(p) && Follows(todos, kind, p) && Stopped(todos, kind, p)
  }

  /** Following one kind of link is a path of the graph. */
  lemma FollowsIsPath(todos: map<int, Todo>, kind: LinkKind, p: seq<int>)
    requires |p| >= 1 && Follows(todos, kind, p)
    ensures IsPath(todos, p)
  {
    forall i | 0 <= i < |p| - 1 ensures Edge(todos, p[i], p[i + 1]) {
      assert p[i] in todos && LinksTo(LinkOf(todos[p[i]], kind), p[i + 1]);
    }
  }

  /** In an acyclic table no walk loops. */
  lemma {:induction false} AcyclicWalkNeverLoops(todos: map<int, Todo>, kind: LinkKind, p: seq<int>)
    requires Acyclic(todos) && |p| >= 1 && Follows(todos, kind, p)
    ensures !Loops(todos, kind, p)
  {
    if Loops(todos, kind, p) {
      var last := p[|p| - 1];
      var target := LinkOf(todos[last], kind).value;
      var j :| 0 <= j < |p| && p[j] == target;
      FollowsIsPath(todos, kind, p);
      SubPath(todos, p, j, |p|);
      var cyc := p[j..] + [target];
      assert IsPath(todos, cyc) by {
        forall k | 0 <= k < |cyc| - 1 ensures Edge(todos, cyc[k], cyc[k + 1]) {
          if k < |cyc| - 2 {
            assert cyc[k] == p[j..][k] && cyc[k + 1] == p[j..][k + 1];
          } else {
            assert cyc[k] == last && cyc[k + 1] == target;
          }
        }
      }
      assert false;
    }
  }
}
