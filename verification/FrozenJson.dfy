/** Deep freezing of JSON object graphs with a shared memo of the objects already known to be deeply frozen. */
module FrozenJson {
  import opened Keys

  /** A JSON value: a primitive or null, `undefined`, an object, or something that is no JSON value. */
  datatype Value = Primitive | Undefined | Ref(node: Node) | NotJson

  /** An array, or an object with the values of its own enumerable properties. */
  class Node {
    const isArray: bool
    const children: seq<Value>
    var frozen: bool

    constructor (isArray: bool, children: seq<Value>)
      ensures this.isArray == isArray && this.children == children && !frozen
    {
      this.isArray, this.children, this.frozen := isArray, children, false;
    }
  }

  /** The `deepFrozenObjects` set. */
  class Memo {
    var objects: set<Node>

    constructor ()
      ensures objects == {}
    {
      objects := {};
    }
  }

  predicate IsJson(v: Value) {
    v.Ref? || v.Primitive?
  }

  /** The child makes a visit of `n` fail: `undefined` is skipped in an object, but not in an array. */
  predicate IsBadChild(n: Node, c: Value) {
    if c.Undefined? then n.isArray else !IsJson(c)
  }

  // ---------- positions in a graph ----------

  predicate HasChild(v: Value, i: nat) {
    v.Ref? && i < |v.node.children|
  }

  /** The value at a position, given by the numbers of the children on the way; a primitive if there is none. */
  function Follow(v: Value, position: seq<nat>): Value
    decreases |position|
  {
    if position == [] then v
    else if HasChild(v, position[0]) then Follow(v.node.children[position[0]], position[1..])
    else Primitive
  }

  /** The objects on the way to a position, without the value there. */
  function Passed(v: Value, position: seq<nat>): set<Node>
    decreases |position|
  {
    if position != [] && HasChild(v, position[0]) then {v.node} + Passed(v.node.children[position[0]], position[1..])
      else {}
  }

  lemma FollowChild(v: Value, i: nat, position: seq<nat>)
    requires HasChild(v, i)
    ensures Follow(v, [i] + position) == Follow(v.node.children[i], position)
    ensures Passed(v, [i] + position) == {v.node} + Passed(v.node.children[i], position)
  {
    assert ([i] + position)[1..] == position;
  }

  ghost predicate InGraph(v: Value, graph: set<Node>) {
    v.Ref? ==> v.node in graph
  }

  ghost predicate ChildrenIn(n: Node, graph: set<Node>) {
    forall c :: c in n.children ==> InGraph(c, graph)
  }

  /** A finite object graph: nothing in it points out of it.  Cycles are allowed. */
  ghost predicate ClosedGraph(graph: set<Node>) {
    forall n :: n in graph ==> ChildrenIn(n, graph)
  }

  // ---------- the memo ----------

  /** The memo's objects are frozen, and except for some so are all their children, by being in the memo themselves. */
  ghost predicate MemoOk(objects: set<Node>, except: set<Node>)
    reads objects
  {
    (forall n :: n in objects ==> n.frozen) && forall n :: n in objects && n !in except ==> ChildrenIn(n, objects)
  }

  /** Everything reachable from a member of the memo is frozen. */
  lemma {:induction false} MemoIsDeeplyFrozen(objects: set<Node>, v: Value, position: seq<nat>)
    requires MemoOk(objects, {}) && InGraph(v, objects)
    ensures InGraph(Follow(v, position), objects)
    decreases |position|
  {
    if position != [] && HasChild(v, position[0]) {
      assert v.node.children[position[0]] in v.node.children;
      MemoIsDeeplyFrozen(objects, v.node.children[position[0]], position[1..]);
    }
  }

  /** Only the children of the excepted objects decide whether a memo is right. */
  lemma OnlyExceptionsDecide(objects: set<Node>, except: set<Node>)
    requires MemoOk(objects, except) && except <= objects
    ensures MemoOk(objects, {}) <==> forall n :: n in except ==> ChildrenIn(n, objects)
  {
  }

  // ---------- deepFreeze ----------

  function Members(seen: seq<Node>): set<Node> {
    set n | n in seen
  }

  /** The value at the position is a bad child, and all objects on the way are outside a set. */
  ghost predicate BadAt(v: Value, position: seq<nat>, avoid: set<Node>)
    decreases |position|
  {
    && position != [] && HasChild(v, position[0]) && v.node !in avoid
    && var c := v.node.children[position[0]];
       if |position| == 1 then IsBadChild(v.node, c) else BadAt(c, position[1..], avoid)
  }

  lemma {:induction false} BadAvoidingLess(v: Value, position: seq<nat>, avoid: set<Node>, less: set<Node>)
    requires BadAt(v, position, avoid) && less <= avoid
    ensures BadAt(v, position, less)
    decreases |position|
  {
    if |position| > 1 {
      BadAvoidingLess(v.node.children[position[0]], position[1..], avoid, less);
    }
  }

  /** The visit of a child failed: then its parent's failed, and passed one object more. */
  lemma BadChildAt(v: Value, i: nat, position: seq<nat>, avoid: set<Node>, now: set<Node>)
    requires HasChild(v, i) && v.node !in avoid && avoid <= now && (v.node.isArray || !v.node.children[i].Undefined?)
    requires var c := v.node.children[i]; if IsJson(c) then BadAt(c, position, now) else position == []
    ensures BadAt(v, [i] + position, avoid)
    ensures Passed(v, [i] + position) == {v.node} + Passed(v.node.children[i], position)
  {
    FollowChild(v, i, position);
    assert ([i] + position)[1..] == position;
    if IsJson(v.node.children[i]) {
      BadAvoidingLess(v.node.children[i], position, now, avoid);
    }
  }

  ghost predicate NothingBad(v: Value, avoid: set<Node>) {
    forall position :: !BadAt(v, position, avoid)
  }

  lemma SomethingBad(v: Value, position: seq<nat>, avoid: set<Node>)
    requires BadAt(v, position, avoid)
    ensures !NothingBad(v, avoid)
  {
  }

  ghost predicate HasBadChild(n: Node) {
    exists c :: c in n.children && IsBadChild(n, c)
  }

  /** The objects that joined the memo after `before` and have been visited completely have no bad children. */
  ghost predicate Clean(objects: set<Node>, visiting: set<Node>, before: set<Node>) {
    forall n :: n in objects && n !in visiting && n !in before ==> !HasBadChild(n)
  }

  /** Nothing bad can be reached without passing through the earlier memo. */
  lemma {:induction false} CleanEverywhere(objects: set<Node>, before: set<Node>, v: Value, position: seq<nat>)
    requires MemoOk(objects, {}) && Clean(objects, {}, before) && InGraph(v, objects)
    ensures !BadAt(v, position, before)
    decreases |position|
  {
    if position != [] && HasChild(v, position[0]) {
      var c := v.node.children[position[0]];
      assert c in v.node.children && ChildrenIn(v.node, objects);
      CleanEverywhere(objects, before, c, position[1..]);
    }
  }

  /** The objects are reachable, and if the visit failed at a position, by a position before that one. */
  ghost predicate ReachedBefore(v: Value, nodes: set<Node>, ok: bool, at: seq<nat>) {
    forall n :: n in nodes ==> exists position :: Follow(v, position) == Ref(n) && (ok || Less(position, at))
  }

  /** The same for the first children of an object. */
  ghost predicate ReachedByFirst(v: Value, nodes: set<Node>, i: nat) {
    forall n :: n in nodes ==> exists position :: Follow(v, position) == Ref(n) && position != [] && position[0] < i
  }

  lemma NothingJoined(v: Value, objects: set<Node>)
    ensures objects - objects == {} && ReachedByFirst(v, {}, 0)
  {
  }

  lemma ReachedByChildren(v: Value, nodes: set<Node>, i: nat)
    requires ReachedByFirst(v, nodes, i)
    ensures forall at :: ReachedBefore(v, nodes, true, at)
  {
  }

  lemma SkippedChild(v: Value, nodes: set<Node>, i: nat)
    requires ReachedByFirst(v, nodes, i)
    ensures ReachedByFirst(v, nodes, i + 1)
  {
  }

  lemma LessByFirst(a: seq<nat>, b: seq<nat>)
    requires a != [] && b != [] && a[0] < b[0]
    ensures Less(a, b)
  {
  }

  /** After the visit of one more child. */
  lemma NextChild(v: Value, i: nat, nodes: set<Node>, more: set<Node>, ok: bool, at: seq<nat>)
    requires HasChild(v, i) && ReachedByFirst(v, nodes, i) && ReachedBefore(v.node.children[i], more, ok, at)
    ensures ok ==> ReachedByFirst(v, nodes + more, i + 1)
    ensures !ok ==> ReachedBefore(v, nodes + more, false, [i] + at)
  {
    forall n | n in nodes + more
      ensures exists position ::
        Follow(v, position) == Ref(n) && position != [] && position[0] < i + 1 && (ok || Less(position, [i] + at))
    {
      if n in nodes {
        var position :| Follow(v, position) == Ref(n) && position != [] && position[0] < i;
        LessByFirst(position, [i] + at);
      } else {
        var position :| Follow(v.node.children[i], position) == Ref(n) && (ok || Less(position, at));
        FollowChild(v, i, position);
        assert ([i] + position)[1..] == position && ([i] + at)[1..] == at;
      }
    }
  }

  /** Of every object on the way to the position, all children before the way are in the memo, and none of them is
    * bad. */
  ghost predicate VisitedBefore(v: Value, position: seq<nat>, objects: set<Node>)
    decreases |position|
  {
    position != [] && HasChild(v, position[0]) ==>
      && (forall j :: 0 <= j < position[0] ==>
            InGraph(v.node.children[j], objects) && !IsBadChild(v.node, v.node.children[j]))
      && VisitedBefore(v.node.children[position[0]], position[1..], objects)
  }

  lemma VisitedBelow(v: Value, i: nat, position: seq<nat>, objects: set<Node>)
    requires HasChild(v, i) && VisitedBefore(v.node.children[i], position, objects)
    requires forall j :: 0 <= j < i ==>
      InGraph(v.node.children[j], objects) && !IsBadChild(v.node, v.node.children[j])
    ensures VisitedBefore(v, [i] + position, objects)
  {
    assert ([i] + position)[1..] == position;
  }

  /** An object joins the memo when its visit starts. */
  lemma StartVisiting(objects: set<Node>, visiting: set<Node>, n: Node)
    requires MemoOk(objects, visiting) && n.frozen
    ensures MemoOk(objects + {n}, visiting + {n})
  {
    forall m | m in objects + {n} && m !in visiting + {n} ensures ChildrenIn(m, objects + {n}) {
      assert ChildrenIn(m, objects);
    }
  }

  /** Freezes everything reachable from `v`; returns whether it finished without an exception, and otherwise the
    * position of what it stumbled over.  `before` is the memo at the outermost call. */
  method DeepFreezeInternal(v: Value, memo: Memo, seen: seq<Node>, ghost graph: set<Node>, ghost before: set<Node>)
    returns (ok: bool, ghost at: seq<nat>)
    requires ClosedGraph(graph) && InGraph(v, graph) && memo.objects <= graph && Members(seen) <= memo.objects
    requires MemoOk(memo.objects, Members(seen)) && Clean(memo.objects, Members(seen), before) && before <= memo.objects
    modifies memo, graph`frozen
    ensures old(memo.objects) <= memo.objects <= graph
    ensures forall n :: n in graph ==> n.frozen == (old(n.frozen) || n in memo.objects - old(memo.objects))
    ensures ReachedBefore(v, memo.objects - old(memo.objects), ok, at)
    ensures ok ==> IsJson(v) && InGraph(v, memo.objects)
    ensures ok ==> MemoOk(memo.objects, Members(seen)) && Clean(memo.objects, Members(seen), before)
    ensures !ok ==> Passed(v, at) <= memo.objects && MemoOk(memo.objects, Members(seen) + Passed(v, at))
    ensures !ok ==> if IsJson(v) then BadAt(v, at, old(memo.objects)) else at == []
    ensures !ok ==> VisitedBefore(v, at, memo.objects)
    decreases graph - memo.objects, 0
  {
    at := [];
    match v {
      case Undefined =>
        assert Members(seen) + {} == Members(seen);
        return false, [];
      case NotJson =>
        assert Members(seen) + {} == Members(seen);
        return false, [];
      case Primitive => return true, [];
      case Ref(n) =>
        if n in memo.objects {
          return true, [];
        }
        memo.objects := memo.objects + {n};
        // never taken: an object being visited is in the memo already
        if n in seen {
          assert false;
          return false, [];
        }
        var seen' := seen + [n];
        assert Members(seen') == Members(seen) + {n};
        n.frozen := true;
        StartVisiting(old(memo.objects), Members(seen), n);
        ok, at := FreezeChildren(n, memo, seen', graph, before, old(memo.objects));
        assert Follow(v, []) == Ref(n);
        if !ok {
          assert n in Passed(v, at);
          assert Members(seen') + Passed(v, at) == Members(seen) + Passed(v, at);
        }
    }
  }

  /** `deepFreezeArray` and `deepFreezeObject`: the latter skips undefined properties. */
  method FreezeChildren(n: Node, memo: Memo, seen: seq<Node>, ghost graph: set<Node>, ghost before: set<Node>,
      ghost avoid: set<Node>)
    returns (ok: bool, ghost at: seq<nat>)
    requires ClosedGraph(graph) && n in memo.objects && memo.objects <= graph && Members(seen) <= memo.objects
    requires n in seen && MemoOk(memo.objects, Members(seen)) && Clean(memo.objects, Members(seen), before)
    requires before <= avoid <= memo.objects && n !in avoid
    modifies memo, graph`frozen
    ensures old(memo.objects) <= memo.objects <= graph
    ensures forall m :: m in graph ==> m.frozen == (old(m.frozen) || m in memo.objects - old(memo.objects))
    ensures ReachedBefore(Ref(n), memo.objects - old(memo.objects), ok, at)
    ensures ok ==> MemoOk(memo.objects, Members(seen)) && Clean(memo.objects, Members(seen), before)
    ensures ok ==> !HasBadChild(n) && ChildrenIn(n, memo.objects)
    ensures !ok ==> Passed(Ref(n), at) <= memo.objects && MemoOk(memo.objects, Members(seen) + Passed(Ref(n), at))
    ensures !ok ==> BadAt(Ref(n), at, avoid) && VisitedBefore(Ref(n), at, memo.objects)
    decreases graph - memo.objects, 1
  {
    hide ReachedBefore, ReachedByFirst, BadAt, Passed, Less, VisitedBefore;
    at := [];
    NothingJoined(Ref(n), memo.objects);
    for i := 0 to |n.children|
      invariant old(memo.objects) <= memo.objects <= graph
      invariant forall m :: m in graph ==> m.frozen == (old(m.frozen) || m in memo.objects - old(memo.objects))
      invariant ReachedByFirst(Ref(n), memo.objects - old(memo.objects), i)
      invariant MemoOk(memo.objects, Members(seen)) && Clean(memo.objects, Members(seen), before)
      invariant forall j :: 0 <= j < i ==> InGraph(n.children[j], memo.objects) && !IsBadChild(n, n.children[j])
    {
      var c := n.children[i];
      assert c in n.children && ChildrenIn(n, graph);
      if n.isArray || !c.Undefined? {
        ghost var position, was := [], memo.objects;
        ok, position := DeepFreezeInternal(c, memo, seen, graph, before);
        NextChild(Ref(n), i, was - old(memo.objects), memo.objects - was, ok, position);
        assert was - old(memo.objects) + (memo.objects - was) == memo.objects - old(memo.objects);
        if !ok {
          at := [i] + position;
          BadChildAt(Ref(n), i, position, avoid, was);
          VisitedBelow(Ref(n), i, position, memo.objects);
          assert Members(seen) + Passed(Ref(n), at) == Members(seen) + Passed(c, position);
          return;
        }
      } else {
        SkippedChild(Ref(n), memo.objects - old(memo.objects), i);
      }
    }
    ok := true;
    ReachedByChildren(Ref(n), memo.objects - old(memo.objects), |n.children|);
  }

  /** Starting from a memo of deeply frozen objects, a normal return leaves every object reachable from the value
    * frozen, and the memo again holds only deeply frozen objects, among them those reachable from the value.  It
    * returns normally if and only if the value is JSON and no bad child can be reached without passing through the
    * memo; a cycle alone is no reason to fail.
    *
    * After an exception only the objects on the way to where it failed can be wrong in the memo, and the memo is right
    * if and only if all their children are in it.  What joined the memo was reached before that position, and all that
    * comes before it has joined. */
  method DeepFreeze(v: Value, memo: Memo, ghost graph: set<Node>) returns (ok: bool, ghost at: seq<nat>)
    requires ClosedGraph(graph) && InGraph(v, graph) && memo.objects <= graph && MemoOk(memo.objects, {})
    modifies memo, graph`frozen
    ensures old(memo.objects) <= memo.objects <= graph
    ensures forall n :: n in graph ==> n.frozen == (old(n.frozen) || n in memo.objects - old(memo.objects))
    ensures ok ==> MemoOk(memo.objects, {}) && InGraph(v, memo.objects)
    ensures ok ==> forall position :: Follow(v, position).Ref? ==> Follow(v, position).node.frozen
    ensures ok <==> IsJson(v) && NothingBad(v, old(memo.objects))
    ensures !ok && IsJson(v) ==> BadAt(v, at, old(memo.objects))
    ensures !ok ==> Passed(v, at) <= memo.objects && MemoOk(memo.objects, Passed(v, at))
    ensures !ok ==> (MemoOk(memo.objects, {}) <==> forall n :: n in Passed(v, at) ==> ChildrenIn(n, memo.objects))
    ensures ReachedBefore(v, memo.objects - old(memo.objects), ok, at)
    ensures !ok ==> VisitedBefore(v, at, memo.objects)
  {
    assert Members([]) == {};
    ghost var before := memo.objects;
    ok, at := DeepFreezeInternal(v, memo, [], graph, before);
    if ok {
      forall position | Follow(v, position).Ref? ensures Follow(v, position).node.frozen {
        MemoIsDeeplyFrozen(memo.objects, v, position);
      }
      forall position ensures !BadAt(v, position, before) {
        CleanEverywhere(memo.objects, before, v, position);
      }
    } else {
      assert Members([]) + Passed(v, at) == Passed(v, at);
      if IsJson(v) { SomethingBad(v, at, before); }
      OnlyExceptionsDecide(memo.objects, Passed(v, at));
    }
  }

  // ---------- isDeepFrozen ----------

  datatype Answer = Yes | No | Threw

  /** The value at the position is an object that is not frozen, and the way to it avoids a set. */
  ghost predicate UnfrozenAt(v: Value, position: seq<nat>, avoid: set<Node>, graph: set<Node>)
    reads graph`frozen
    decreases |position|
  {
    && v.Ref? && v.node !in avoid
    && if position == [] then v.node in graph && !v.node.frozen
       else HasChild(v, position[0]) && UnfrozenAt(v.node.children[position[0]], position[1..], avoid, graph)
  }

  /** The position is that of a bad child, or of an object that is being visited or has been passed on the way, and the
    * way to it avoids a set. */
  ghost predicate Stumbles(v: Value, position: seq<nat>, visiting: set<Node>, avoid: set<Node>)
    decreases |position|
  {
    v.Ref? && v.node !in avoid &&
      if position == [] then v.node in visiting
      else
        && HasChild(v, position[0])
        && var c := v.node.children[position[0]];
           (|position| == 1 && IsBadChild(v.node, c)) || Stumbles(c, position[1..], visiting + {v.node}, avoid)
  }

  /** The check comes to this stumbling position before any object that is not frozen. */
  ghost predicate StumblesFirst(v: Value, position: seq<nat>, visiting: set<Node>, avoid: set<Node>, graph: set<Node>)
    reads graph`frozen
  {
    Stumbles(v, position, visiting, avoid) && forall q :: UnfrozenAt(v, q, avoid, graph) ==> !Less(q, position)
  }

  /** The check comes to this object that is not frozen before any stumbling position. */
  ghost predicate UnfrozenFirst(v: Value, position: seq<nat>, visiting: set<Node>, avoid: set<Node>, graph: set<Node>)
    reads graph`frozen
  {
    UnfrozenAt(v, position, avoid, graph) && forall q :: Stumbles(v, q, visiting, avoid) ==> !Less(q, position)
  }

  /** Nothing can be found below the value. */
  ghost predicate Quiet(v: Value, visiting: set<Node>, avoid: set<Node>, graph: set<Node>)
    reads graph`frozen
  {
    forall q :: !UnfrozenAt(v, q, avoid, graph) && !Stumbles(v, q, visiting, avoid)
  }

  /** The objects added to the memo, in order: each is frozen, without bad children, and its children were added before
    * it or had been there. */
  ghost predicate Ranked(order: seq<Node>, before: set<Node>)
    reads order
  {
    forall i :: 0 <= i < |order| ==>
      && order[i] !in before && order[i] !in order[..i] && order[i].frozen && !HasBadChild(order[i])
      && ChildrenIn(order[i], before + Members(order[..i]))
  }

  /** Nothing can be found below an object that was added: its children come before it in the order. */
  lemma {:induction false} RankedQuiet(order: seq<Node>, n: nat, v: Value, q: seq<nat>, visiting: set<Node>,
      before: set<Node>, graph: set<Node>)
    requires Ranked(order, before) && n <= |order| && InGraph(v, before + Members(order[..n]))
    requires visiting !! Members(order[..n])
    ensures !UnfrozenAt(v, q, before, graph) && !Stumbles(v, q, visiting, before)
    decreases |q|
  {
    if v.Ref? && v.node !in before {
      var i :| 0 <= i < n && order[i] == v.node;
      assert order[..n][i] in order[..n];
      if q != [] && HasChild(v, q[0]) {
        var c := v.node.children[q[0]];
        assert c in v.node.children && !IsBadChild(v.node, c);
        assert Members(order[..i]) <= Members(order[..n]) by { PrefixMembers(order, i, n); }
        RankedQuiet(order, i, c, q[1..], visiting + {v.node}, before, graph);
      }
    }
  }

  lemma PrefixMembers(order: seq<Node>, i: nat, n: nat)
    requires i <= n <= |order|
    ensures Members(order[..i]) <= Members(order[..n])
  {
    forall m | m in order[..i] ensures m in order[..n] {
      var j :| 0 <= j < i && order[j] == m;
      assert order[..n][j] == m;
    }
  }

  lemma MemoIsQuiet(order: seq<Node>, v: Value, visiting: set<Node>, before: set<Node>, graph: set<Node>)
    requires Ranked(order, before) && InGraph(v, before + Members(order)) && visiting !! Members(order)
    ensures Quiet(v, visiting, before, graph)
  {
    assert order[..|order|] == order;
    forall q ensures !UnfrozenAt(v, q, before, graph) && !Stumbles(v, q, visiting, before) {
      RankedQuiet(order, |order|, v, q, visiting, before, graph);
    }
  }

  /** What the check knows of the children it has finished. */
  ghost predicate ChildrenQuiet(v: Value, i: nat, visiting: set<Node>, avoid: set<Node>, graph: set<Node>)
    reads graph`frozen
  {
    v.Ref? && i <= |v.node.children| &&
    forall j :: 0 <= j < i ==>
      !IsBadChild(v.node, v.node.children[j]) && Quiet(v.node.children[j], visiting + {v.node}, avoid, graph)
  }

  /** Nothing comes before a position in a child, if the children before it are quiet, nothing is found at the object
    * itself, and nothing comes before in the child. */
  lemma UnfrozenBelow(v: Value, i: nat, position: seq<nat>, visiting: set<Node>, avoid: set<Node>, graph: set<Node>,
      q: seq<nat>)
    requires HasChild(v, i) && ChildrenQuiet(v, i, visiting, avoid, graph) && v.node.frozen
    requires forall q' :: UnfrozenAt(v.node.children[i], q', avoid, graph) ==> !Less(q', position)
    requires UnfrozenAt(v, q, avoid, graph)
    ensures !Less(q, [i] + position)
  {
    assert ([i] + position)[1..] == position;
  }

  lemma StumblesBelow(v: Value, i: nat, position: seq<nat>, visiting: set<Node>, avoid: set<Node>, graph: set<Node>,
      q: seq<nat>)
    requires HasChild(v, i) && ChildrenQuiet(v, i, visiting, avoid, graph) && v.node !in visiting
    requires IsJson(v.node.children[i])
    requires forall q' :: Stumbles(v.node.children[i], q', visiting + {v.node}, avoid) ==> !Less(q', position)
    requires Stumbles(v, q, visiting, avoid)
    ensures !Less(q, [i] + position)
  {
    assert ([i] + position)[1..] == position;
  }

  lemma ThrewInChild(v: Value, i: nat, position: seq<nat>, visiting: set<Node>, avoid: set<Node>, graph: set<Node>)
    requires HasChild(v, i) && ChildrenQuiet(v, i, visiting, avoid, graph) && v.node.frozen && v.node !in avoid
    requires v.node.isArray || !v.node.children[i].Undefined?
    requires var c := v.node.children[i];
      if IsJson(c) then StumblesFirst(c, position, visiting + {v.node}, avoid, graph) else position == []
    ensures StumblesFirst(v, [i] + position, visiting, avoid, graph)
  {
    assert ([i] + position)[1..] == position;
    forall q | UnfrozenAt(v, q, avoid, graph) ensures !Less(q, [i] + position) {
      UnfrozenBelow(v, i, position, visiting, avoid, graph, q);
    }
  }

  lemma NoInChild(v: Value, i: nat, position: seq<nat>, visiting: set<Node>, avoid: set<Node>, graph: set<Node>)
    requires HasChild(v, i) && ChildrenQuiet(v, i, visiting, avoid, graph) && v.node !in visiting && v.node !in avoid
    requires UnfrozenFirst(v.node.children[i], position, visiting + {v.node}, avoid, graph)
    ensures UnfrozenFirst(v, [i] + position, visiting, avoid, graph)
  {
    assert ([i] + position)[1..] == position;
    forall q | Stumbles(v, q, visiting, avoid) ensures !Less(q, [i] + position) {
      StumblesBelow(v, i, position, visiting, avoid, graph, q);
    }
  }

  lemma AddFinished(objects: set<Node>, n: Node)
    requires MemoOk(objects, {}) && n.frozen && ChildrenIn(n, objects)
    ensures MemoOk(objects + {n}, {})
  {
    forall m | m in objects + {n} ensures ChildrenIn(m, objects + {n}) {
      assert ChildrenIn(m, objects);
    }
  }

  lemma AddRanked(order: seq<Node>, n: Node, before: set<Node>)
    requires Ranked(order, before) && n !in before && n !in order && n.frozen && !HasBadChild(n)
    requires ChildrenIn(n, before + Members(order))
    ensures Ranked(order + [n], before) && Members(order + [n]) == Members(order) + {n}
  {
    var longer := order + [n];
    forall i | 0 <= i < |longer| ensures longer[..i] == order[..i] {
    }
    assert order[..|order|] == order;
  }

  lemma NothingChecked(v: Value, objects: set<Node>)
    ensures VisitedBefore(v, [], objects) && forall ok :: ReachedBefore(v, objects - objects, ok, [])
  {
  }

  /** An object joins the memo after everything below it. */
  lemma JoinsLast(v: Value, nodes: set<Node>, i: nat)
    requires v.Ref? && ReachedByFirst(v, nodes, i)
    ensures forall at :: ReachedBefore(v, nodes + {v.node}, true, at)
  {
    assert Follow(v, []) == v;
  }

  lemma FoundHere(v: Value, visiting: set<Node>, avoid: set<Node>, graph: set<Node>)
    requires v.Ref? && v.node !in avoid && v.node in graph
    ensures !v.node.frozen ==> UnfrozenFirst(v, [], visiting, avoid, graph)
    ensures v.node in visiting && v.node.frozen ==> StumblesFirst(v, [], visiting, avoid, graph)
  {
  }

  lemma ChildIsIn(n: Node, i: nat, graph: set<Node>)
    requires ClosedGraph(graph) && n in graph && i < |n.children|
    ensures InGraph(n.children[i], graph)
  {
    assert n.children[i] in n.children && ChildrenIn(n, graph);
  }

  lemma ChildrenAreGood(n: Node, objects: set<Node>)
    requires forall j :: 0 <= j < |n.children| ==> InGraph(n.children[j], objects) && !IsBadChild(n, n.children[j])
    ensures ChildrenIn(n, objects) && !HasBadChild(n)
  {
  }

  /** `before` is the memo at the outermost call, and `order` what has been added to it since.  Every answer but yes
    * comes with the first position that is a reason for it. */
  method IsDeepFrozenInternal(v: Value, memo: Memo, seen: seq<Node>, ghost graph: set<Node>, ghost before: set<Node>,
      ghost order: seq<Node>)
    returns (answer: Answer, ghost reason: seq<nat>, ghost order': seq<Node>)
    requires ClosedGraph(graph) && InGraph(v, graph) && memo.objects <= graph && Members(seen) <= graph
    requires memo.objects == before + Members(order) && Ranked(order, before) && Members(seen) !! memo.objects
    modifies memo
    ensures old(memo.objects) <= memo.objects <= graph && Members(seen) !! memo.objects
    ensures memo.objects == before + Members(order') && Ranked(order', before)
    ensures old(MemoOk(memo.objects, {})) ==> MemoOk(memo.objects, {})
    ensures answer.Yes? ==> InGraph(v, memo.objects) && IsJson(v)
    ensures answer.No? ==> UnfrozenFirst(v, reason, Members(seen), before, graph)
    ensures answer.Threw? ==> if IsJson(v) then StumblesFirst(v, reason, Members(seen), before, graph) else reason == []
    ensures !answer.Yes? ==> VisitedBefore(v, reason, memo.objects)
    ensures ReachedBefore(v, memo.objects - old(memo.objects), answer.Yes?, reason)
    ensures v.Ref? && v.node in old(memo.objects) ==> answer.Yes?
    decreases graph - Members(seen)
  {
    hide MemoOk, Ranked, UnfrozenFirst, StumblesFirst, ClosedGraph, ChildrenIn, ChildrenQuiet, HasBadChild;
    hide VisitedBefore, ReachedBefore, ReachedByFirst, Less;
    NothingChecked(v, memo.objects);
    reason, order' := [], order;
    match v {
      case Undefined => return Threw, [], order;
      case NotJson => return Threw, [], order;
      case Primitive => return Yes, [], order;
      case Ref(n) =>
        if n in memo.objects {
          return Yes, [], order;
        }
        FoundHere(v, Members(seen), before, graph);
        if !n.frozen {
          return No, [], order;
        }
        if n in seen {
          return Threw, [], order;
        }
        var seen' := seen + [n];
        assert Members(seen') == Members(seen) + {n};
        NothingJoined(v, memo.objects);
        for i := 0 to |n.children|
          invariant old(memo.objects) <= memo.objects <= graph && Members(seen') !! memo.objects
          invariant ReachedByFirst(v, memo.objects - old(memo.objects), i)
          invariant memo.objects == before + Members(order') && Ranked(order', before)
          invariant old(MemoOk(memo.objects, {})) ==> MemoOk(memo.objects, {})
          invariant forall j :: 0 <= j < i ==> InGraph(n.children[j], memo.objects) && !IsBadChild(n, n.children[j])
        {
          var c := n.children[i];
          ChildIsIn(n, i, graph);
          if n.isArray || !c.Undefined? {
            ghost var position, was := [], memo.objects;
            answer, position, order' := IsDeepFrozenInternal(c, memo, seen', graph, before, order');
            NextChild(v, i, was - old(memo.objects), memo.objects - was, answer.Yes?, position);
            assert was - old(memo.objects) + (memo.objects - was) == memo.objects - old(memo.objects);
            if !answer.Yes? {
              VisitedBelow(v, i, position, memo.objects);
              FinishedAreQuiet(v, i, order', Members(seen), before, graph);
              reason := [i] + position;
              if answer.No? {
                NoInChild(v, i, position, Members(seen), before, graph);
              } else {
                ThrewInChild(v, i, position, Members(seen), before, graph);
              }
              return;
            }
          } else {
            SkippedChild(v, memo.objects - old(memo.objects), i);
          }
        }
        JoinsLast(v, memo.objects - old(memo.objects), |n.children|);
        ChildrenAreGood(n, memo.objects);
        if MemoOk(memo.objects, {}) { AddFinished(memo.objects, n); }
        AddRanked(order', n, before);
        assert memo.objects + {n} - old(memo.objects) == memo.objects - old(memo.objects) + {n};
        memo.objects, order' := memo.objects + {n}, order' + [n];
        reason, answer := [], Yes;
    }
  }

  lemma FinishedAreQuiet(v: Value, i: nat, order: seq<Node>, visiting: set<Node>, before: set<Node>, graph: set<Node>)
    requires v.Ref? && i <= |v.node.children| && Ranked(order, before) && visiting + {v.node} !! before + Members(order)
    requires forall j :: 0 <= j < i ==>
      InGraph(v.node.children[j], before + Members(order)) && !IsBadChild(v.node, v.node.children[j])
    ensures ChildrenQuiet(v, i, visiting, before, graph)
  {
    hide Ranked;
    forall j | 0 <= j < i ensures Quiet(v.node.children[j], visiting + {v.node}, before, graph) {
      MemoIsQuiet(order, v.node.children[j], visiting + {v.node}, before, graph);
    }
  }

  ghost predicate ThrowsFirst(v: Value, avoid: set<Node>, graph: set<Node>)
    reads graph`frozen
  {
    !IsJson(v) || exists position :: StumblesFirst(v, position, {}, avoid, graph)
  }

  ghost predicate FailsFirst(v: Value, avoid: set<Node>, graph: set<Node>)
    reads graph`frozen
  {
    exists position :: UnfrozenFirst(v, position, {}, avoid, graph)
  }

  lemma TotalOrder(a: seq<nat>, b: seq<nat>)
    ensures Less(a, b) || a == b || Less(b, a)
  {
    Trichotomy(a, b);
  }

  /** An object that is not frozen is no place to stumble at: objects passed on the way are frozen. */
  lemma {:induction false} NotBoth(v: Value, position: seq<nat>, visiting: set<Node>, avoid: set<Node>,
      graph: set<Node>)
    requires Stumbles(v, position, visiting, avoid) && UnfrozenAt(v, position, avoid, graph)
    requires forall n :: n in visiting ==> n.frozen
    requires forall q :: UnfrozenAt(v, q, avoid, graph) ==> !Less(q, position)
    requires InGraph(v, graph) && ClosedGraph(graph)
    ensures false
    decreases |position|
  {
    if position != [] {
      assert !UnfrozenAt(v, [], avoid, graph);
      var c := v.node.children[position[0]];
      assert c in v.node.children && ChildrenIn(v.node, graph);
      forall q | UnfrozenAt(c, q, avoid, graph) ensures !Less(q, position[1..]) {
        assert ([position[0]] + q)[1..] == q;
        assert UnfrozenAt(v, [position[0]] + q, avoid, graph);
      }
      NotBoth(c, position[1..], visiting + {v.node}, avoid, graph);
    }
  }

  /** The two reasons exclude each other. */
  lemma OnlyOneFirst(v: Value, avoid: set<Node>, graph: set<Node>)
    requires InGraph(v, graph) && ClosedGraph(graph)
    ensures !(ThrowsFirst(v, avoid, graph) && FailsFirst(v, avoid, graph))
  {
    if ThrowsFirst(v, avoid, graph) && FailsFirst(v, avoid, graph) {
      var q :| UnfrozenFirst(v, q, {}, avoid, graph);
      var p :| StumblesFirst(v, p, {}, avoid, graph);
      TotalOrder(p, q);
      NotBoth(v, p, {}, avoid, graph);
    }
  }

  lemma QuietIsNeither(v: Value, avoid: set<Node>, graph: set<Node>)
    requires IsJson(v) && Quiet(v, {}, avoid, graph)
    ensures !ThrowsFirst(v, avoid, graph) && !FailsFirst(v, avoid, graph)
  {
  }

  /** The check throws if and only if it comes to something that is not JSON, or to a cycle, before any object that
    * is not frozen; it answers no if and only if it comes to an object that is not frozen first; both outside the
    * memo.  With a memo of deeply frozen objects the answer is yes only if every reachable object is frozen, and no
    * only if one is not. The memo keeps holding only deeply frozen objects whatever happens. */
  method IsDeepFrozen(v: Value, memo: Memo, ghost graph: set<Node>) returns (answer: Answer, ghost reason: seq<nat>)
    requires ClosedGraph(graph) && InGraph(v, graph) && memo.objects <= graph
    modifies memo
    ensures old(memo.objects) <= memo.objects <= graph
    ensures old(MemoOk(memo.objects, {})) ==> MemoOk(memo.objects, {})
    ensures old(MemoOk(memo.objects, {})) && answer.Yes? ==>
      forall position :: Follow(v, position).Ref? ==> Follow(v, position).node.frozen
    ensures answer.No? ==> Follow(v, reason).Ref? && !Follow(v, reason).node.frozen
    ensures answer.Threw? <==> ThrowsFirst(v, old(memo.objects), graph)
    ensures answer.No? <==> FailsFirst(v, old(memo.objects), graph)
    ensures v.Ref? && v.node in old(memo.objects) ==> answer.Yes?
    ensures answer.Yes? ==> InGraph(v, memo.objects)
    ensures !answer.Yes? ==> VisitedBefore(v, reason, memo.objects)
    ensures ReachedBefore(v, memo.objects - old(memo.objects), answer.Yes?, reason)
  {
    assert Members([]) == {};
    ghost var order, before := [], memo.objects;
    answer, reason, order := IsDeepFrozenInternal(v, memo, [], graph, before, []);
    OnlyOneFirst(v, before, graph);
    if answer.Yes? {
      MemoIsQuiet(order, v, {}, before, graph);
      QuietIsNeither(v, before, graph);
      if old(MemoOk(memo.objects, {})) {
        forall position | Follow(v, position).Ref? ensures Follow(v, position).node.frozen {
          MemoIsDeeplyFrozen(memo.objects, v, position);
        }
      }
    }
    if answer.No? { UnfrozenIsThere(v, reason, before, graph); }
  }

  lemma {:induction false} UnfrozenIsThere(v: Value, position: seq<nat>, avoid: set<Node>, graph: set<Node>)
    requires UnfrozenAt(v, position, avoid, graph)
    ensures Follow(v, position).Ref? && !Follow(v, position).node.frozen
    decreases |position|
  {
    if position != [] {
      UnfrozenIsThere(v.node.children[position[0]], position[1..], avoid, graph);
    }
  }

  // ---------- an exception can break the memo ----------

  /** In an array of `undefined` and an empty object, only the first position is bad, and the object comes after it. */
  lemma FailsAtFirst(root: Node, child: Node, position: seq<nat>)
    requires root != child && root.isArray && root.children == [Undefined, Ref(child)] && child.children == []
    ensures BadAt(Ref(root), position, {}) ==> position == [0]
    ensures Follow(Ref(root), position) == Ref(child) ==> !Less(position, [0])
  {
    if position != [] {
      assert !BadAt(Undefined, position[1..], {}) && !BadAt(Ref(child), position[1..], {});
      assert position[0] == 0 && |position| == 1 ==> position == [0];
    }
  }

  /** Freezing an array that begins with `undefined` throws, and afterwards the array is taken for deeply frozen
    * although an object in it is not. */
  method ThrowBreaksMemo() returns (root: Node, child: Node, answer: Answer)
    ensures Ref(child) in root.children && !child.frozen
    ensures answer.Yes?
  {
    child := new Node(false, []);
    root := new Node(true, [Undefined, Ref(child)]);
    var memo := new Memo();
    ghost var graph := {root, child};
    ghost var at;
    var ok;
    ok, at := DeepFreeze(Ref(root), memo, graph);
    assert BadAt(Ref(root), [0], {});
    SomethingBad(Ref(root), [0], {});
    FailsAtFirst(root, child, at);
    assert root in Passed(Ref(root), at);
    NotJoined(root, child, memo.objects);
    ghost var reason;
    answer, reason := IsDeepFrozen(Ref(root), memo, graph);
  }

  lemma NotJoined(root: Node, child: Node, joined: set<Node>)
    requires root != child && root.isArray && root.children == [Undefined, Ref(child)] && child.children == []
    requires ReachedBefore(Ref(root), joined, false, [0])
    ensures child !in joined
  {
    if child in joined {
      var position :| Follow(Ref(root), position) == Ref(child) && Less(position, [0]);
      FailsAtFirst(root, child, position);
    }
  }
}
