/**
  The status of the nodes of a Cassandra cluster as the local node sees it, and the
  readiness probe built on it. That no node is in two statuses or two states is detected by
  comparing the size of a union with the sum of the sizes.
 */
module Nodetool {
  import opened Common

  datatype NodeState = Normal | Leaving | Joining | Moving

  datatype NodeStatus = Unknown | Up | Down

  datatype Node = Node(id: string, state: NodeState, status: NodeStatus, local: bool)

  /** The answer of the storage service; host ids are compared as text. */
  datatype StorageService = StorageService(hostIds: map<string, string>, live: seq<string>, unreachable: seq<string>,
                                           leaving: seq<string>, joining: seq<string>, moving: seq<string>,
                                           localHostId: string)

  function ToSet(s: seq<string>): set<string> {
    set x | x in s
  }

  // ----- Disjointness by counting -----

  /** Two sets at different positions have a common element. */
  predicate SomePairShares(sets: seq<set<string>>) {
    exists i, j :: 0 <= i < j < |sets| && sets[i] * sets[j] != {}
  }

  function Union(sets: seq<set<string>>): set<string> {
    if sets == [] then {} else Union(sets[..|sets| - 1]) + sets[|sets| - 1]
  }

  function TotalSize(sets: seq<set<string>>): nat {
    if sets == [] then 0 else TotalSize(sets[..|sets| - 1]) + |sets[|sets| - 1]|
  }

  lemma {:induction false} UnionMember(sets: seq<set<string>>, x: string)
    ensures x in Union(sets) <==> exists i :: 0 <= i < |sets| && x in sets[i]
  {
    if sets != [] {
      var rest := sets[..|sets| - 1];
      UnionMember(rest, x);
      assert forall i :: 0 <= i < |rest| ==> rest[i] == sets[i];
      if x in sets[|sets| - 1] {
        assert 0 <= |sets| - 1 < |sets|;
      }
    }
  }

  lemma SizeOfUnion(a: set<string>, b: set<string>)
    ensures |a + b| + |a * b| == |a| + |b|
  {
  }

  lemma LastShares(sets: seq<set<string>>)
    requires sets != []
    ensures SomePairShares(sets)
            <==> SomePairShares(sets[..|sets| - 1]) || Union(sets[..|sets| - 1]) * sets[|sets| - 1] != {}
  {
    var rest, last := sets[..|sets| - 1], sets[|sets| - 1];
    assert forall i :: 0 <= i < |rest| ==> rest[i] == sets[i];
    if Union(rest) * last != {} {
      var x :| x in Union(rest) * last;
      UnionMember(rest, x);
      var i :| 0 <= i < |rest| && x in rest[i];
      assert x in sets[i] * sets[|rest|];
    }
    if SomePairShares(sets) {
      var i, j :| 0 <= i < j < |sets| && sets[i] * sets[j] != {};
      if j == |rest| {
        var x :| x in sets[i] * sets[j];
        UnionMember(rest, x);
        assert x in Union(rest) * last;
      } else {
        assert rest[i] * rest[j] != {};
      }
    }
  }

  /** The union is never larger than the sum of the sizes, and equals it exactly when no two sets share. */
  lemma {:induction false} CountingDetectsSharing(sets: seq<set<string>>)
    ensures |Union(sets)| <= TotalSize(sets)
    ensures |Union(sets)| != TotalSize(sets) <==> SomePairShares(sets)
  {
    if sets != [] {
      var rest, last := sets[..|sets| - 1], sets[|sets| - 1];
      CountingDetectsSharing(rest);
      SizeOfUnion(Union(rest), last);
      LastShares(sets);
    }
  }

  /** setsIntersect. */
  method SetsIntersect(setsToCheck: seq<set<string>>) returns (r: bool)
    ensures r <==> SomePairShares(setsToCheck)
  {
    var all: set<string> := {};
    var totalLength := 0;
    for i := 0 to |setsToCheck|
      invariant all == Union(setsToCheck[..i]) && totalLength == TotalSize(setsToCheck[..i])
    {
      assert setsToCheck[..i + 1][..i] == setsToCheck[..i] && setsToCheck[..i + 1][i] == setsToCheck[i];
      totalLength := totalLength + |setsToCheck[i]|;
      all := all + setsToCheck[i];
    }
    assert setsToCheck[..|setsToCheck|] == setsToCheck;
    CountingDetectsSharing(setsToCheck);
    return |all| != totalLength;
  }

  // ----- Status -----

  /** No host is both live and unreachable, nor in two of the leaving, joining and moving lists. */
  predicate Consistent(ss: StorageService) {
    && (forall h :: h in ss.live ==> h !in ss.unreachable)
    && (forall h :: h in ss.leaving ==> h !in ss.joining && h !in ss.moving)
    && (forall h :: h in ss.joining ==> h !in ss.moving)
  }

  /** What each list says about a host, each clause on its own: no order of the cases is involved. */
  predicate Describes(ss: StorageService, host: string, n: Node) {
    && host in ss.hostIds && n.id == ss.hostIds[host]
    && (n.status == Up <==> host in ss.live)
    && (n.status == Down <==> host in ss.unreachable)
    && (n.state == Leaving <==> host in ss.leaving)
    && (n.state == Joining <==> host in ss.joining)
    && (n.state == Moving <==> host in ss.moving)
    && (n.local <==> ss.hostIds[host] == ss.localHostId)
  }

  lemma PairsShare(ss: StorageService)
    ensures SomePairShares([ToSet(ss.live), ToSet(ss.unreachable)])
            || SomePairShares([ToSet(ss.leaving), ToSet(ss.joining), ToSet(ss.moving)])
            <==> !Consistent(ss)
  {
    var two, three := [ToSet(ss.live), ToSet(ss.unreachable)], [ToSet(ss.leaving), ToSet(ss.joining), ToSet(ss.moving)];
    if h :| h in ss.live && h in ss.unreachable {
      assert h in two[0] * two[1];
    }
    if h :| h in ss.leaving && h in ss.joining {
      assert h in three[0] * three[1];
    }
    if h :| h in ss.leaving && h in ss.moving {
      assert h in three[0] * three[2];
    }
    if h :| h in ss.joining && h in ss.moving {
      assert h in three[1] * three[2];
    }
    if i, j :| 0 <= i < j < |two| && two[i] * two[j] != {} {
      var h :| h in two[i] * two[j];
    }
    if i, j :| 0 <= i < j < |three| && three[i] * three[j] != {} {
      var h :| h in three[i] * three[j];
    }
  }

  /** One iteration of the loop over the hosts. */
  method Classify(ss: StorageService, host: string, node: Node) returns (n: Node)
    requires host in ss.hostIds && node.id == ss.hostIds[host] && !node.local
    ensures Consistent(ss) ==> Describes(ss, host, n)
  {
    n := node;
    if host in ss.live {
      n := n.(status := Up);
    } else if host in ss.unreachable {
      n := n.(status := Down);
    } else {
      n := n.(status := Unknown);
    }
    if host in ss.leaving {
      n := n.(state := Leaving);
    } else if host in ss.joining {
      n := n.(state := Joining);
    } else if host in ss.moving {
      n := n.(state := Moving);
    } else {
      n := n.(state := Normal);
    }
    if ss.localHostId == n.id {
      n := n.(local := true);
    }
  }

  /**
    Status: an error exactly when some list entries contradict each other; otherwise one node
    per host that reported an id, described by every list at once.
   */
  method Status(ss: StorageService) returns (r: Option<map<string, Node>>)
    ensures r.Some? <==> Consistent(ss)
    ensures r.Some? ==> r.value.Keys == ss.hostIds.Keys
    ensures r.Some? ==> forall h :: h in r.value ==> Describes(ss, h, r.value[h])
  {
    var nodes: map<string, Node> := map h | h in ss.hostIds :: Node(ss.hostIds[h], Normal, Unknown, false);
    PairsShare(ss);
    var statuses := SetsIntersect([ToSet(ss.live), ToSet(ss.unreachable)]);
    if statuses {
      return None;
    }
    var states := SetsIntersect([ToSet(ss.leaving), ToSet(ss.joining), ToSet(ss.moving)]);
    if states {
      return None;
    }
    var todo := nodes.Keys;
    while todo != {}
      invariant todo <= nodes.Keys == ss.hostIds.Keys
      invariant forall h :: h in nodes ==> nodes[h].id == ss.hostIds[h]
      invariant forall h :: h in todo ==> !nodes[h].local
      invariant forall h :: h in nodes && h !in todo ==> Describes(ss, h, nodes[h])
      decreases todo
    {
      var host :| host in todo;
      var node := Classify(ss, host, nodes[host]);
      nodes := nodes[host := node];
      todo := todo - {host};
    }
    return Some(nodes);
  }

  // ----- Readiness -----

  predicate IsLocal(ss: StorageService, host: string) {
    host in ss.hostIds && ss.hostIds[host] == ss.localHostId
  }

  /** Live, and in none of the other lists. */
  predicate UpAndNormal(ss: StorageService, host: string) {
    host in ss.live && host !in ss.unreachable && host !in ss.leaving && host !in ss.joining && host !in ss.moving
  }

  /** A sequence that visits each key once: an order in which Go may iterate over a map. */
  predicate Enumerates(order: seq<string>, keys: set<string>) {
    (forall i, j :: 0 <= i < j < |order| ==> order[i] != order[j]) && ToSet(order) == keys
  }

  /** The first host of the order with the local id. */
  function FirstLocal(ss: StorageService, order: seq<string>): (r: Option<string>)
    ensures r.Some? ==> r.value in order && IsLocal(ss, r.value)
    ensures r.None? ==> forall h :: h in order ==> !IsLocal(ss, h)
  {
    if order == [] then None
    else if IsLocal(ss, order[0]) then Some(order[0])
    else FirstLocal(ss, order[1..])
  }

  /** LocalNode, iterating in the given order over the nodes that Status has described. */
  method LocalNode(ss: StorageService, nodes: map<string, Node>, order: seq<string>) returns (host: Option<string>)
    requires Enumerates(order, nodes.Keys) && nodes.Keys == ss.hostIds.Keys
    requires forall h :: h in nodes ==> Describes(ss, h, nodes[h])
    ensures host == FirstLocal(ss, order)
  {
    var i := 0;
    while i < |order|
      invariant 0 <= i <= |order|
      invariant FirstLocal(ss, order) == FirstLocal(ss, order[i..])
    {
      assert order[i] in nodes.Keys && Describes(ss, order[i], nodes[order[i]]);
      if nodes[order[i]].local {
        return Some(order[i]);
      }
      assert order[i..][1..] == order[i + 1..];
      i := i + 1;
    }
    return None;
  }

  /** What the readiness probe answers when the map is iterated in the given order. */
  predicate Answer(ss: StorageService, order: seq<string>) {
    Consistent(ss) && FirstLocal(ss, order).Some? && UpAndNormal(ss, FirstLocal(ss, order).value)
  }

  /** localNodeUpAndNormal. */
  method ReadinessCheck(ss: StorageService, order: seq<string>) returns (ready: bool)
    requires Enumerates(order, ss.hostIds.Keys)
    ensures ready == Answer(ss, order)
    ensures ready ==> exists h :: IsLocal(ss, h) && UpAndNormal(ss, h)
  {
    var nodes := Status(ss);
    if nodes.None? {
      return false;
    }
    var localNode := LocalNode(ss, nodes.value, order);
    if localNode.None? {
      return false;
    }
    var h := localNode.value;
    assert Describes(ss, h, nodes.value[h]) && IsLocal(ss, h);
    if nodes.value[h].status != Up {
      return false;
    }
    if nodes.value[h].state != Normal {
      return false;
    }
    return true;
  }

  lemma {:induction false} SomeOrder(keys: set<string>) returns (order: seq<string>)
    ensures Enumerates(order, keys)
  {
    if keys == {} {
      return [];
    }
    var h :| h in keys;
    order := SomeOrder(keys - {h});
    order := Prepended(order, keys, h);
  }

  lemma Prepended(order: seq<string>, keys: set<string>, h: string) returns (order': seq<string>)
    requires h in keys && Enumerates(order, keys - {h})
    ensures Enumerates(order', keys) && order' == [h] + order
  {
    order' := [h] + order;
    assert forall i :: 0 <= i < |order| ==> order[i] in ToSet(order);
    assert ToSet(order') == {h} + ToSet(order);
  }

  /** Each host with the local id is the one found, in some order. */
  lemma EachLocalIsFound(ss: StorageService, host: string) returns (order: seq<string>)
    requires IsLocal(ss, host)
    ensures Enumerates(order, ss.hostIds.Keys) && FirstLocal(ss, order) == Some(host)
  {
    var rest := SomeOrder(ss.hostIds.Keys - {host});
    order := Prepended(rest, ss.hostIds.Keys, host);
  }

  /** All hosts with the local id agree on being up and normal. */
  ghost predicate LocalsAgree(ss: StorageService) {
    forall g, h :: IsLocal(ss, g) && IsLocal(ss, h) ==> UpAndNormal(ss, g) == UpAndNormal(ss, h)
  }

  /**
    The answer is the same for every order of iteration exactly when all hosts with the local id
    agree on being up and normal, or the lists are contradictory anyway.
   */
  lemma AnswerUniqueIff(ss: StorageService)
    ensures (forall a, b :: Enumerates(a, ss.hostIds.Keys) && Enumerates(b, ss.hostIds.Keys) ==>
               Answer(ss, a) == Answer(ss, b))
            <==> !Consistent(ss) || LocalsAgree(ss)
  {
    if !LocalsAgree(ss) {
      var g, h :| IsLocal(ss, g) && IsLocal(ss, h) && UpAndNormal(ss, g) != UpAndNormal(ss, h);
      var a := EachLocalIsFound(ss, g);
      var b := EachLocalIsFound(ss, h);
      assert Consistent(ss) ==> Answer(ss, a) != Answer(ss, b);
    } else {
      forall a, b | Enumerates(a, ss.hostIds.Keys) && Enumerates(b, ss.hostIds.Keys)
        ensures Answer(ss, a) == Answer(ss, b)
      {
        assert ToSet(a) == ToSet(b);
        forall h ensures h in a <==> h in b {
          assert h in ToSet(a) <==> h in ToSet(b);
        }
      }
    }
  }

  /** With distinct host ids the probe is exact: ready if and only if the local host is up and normal. */
  lemma ReadyExactly(ss: StorageService, order: seq<string>, host: string)
    requires forall g, h :: g in ss.hostIds && h in ss.hostIds && ss.hostIds[g] == ss.hostIds[h] ==> g == h
    requires Enumerates(order, ss.hostIds.Keys) && IsLocal(ss, host)
    ensures Answer(ss, order) <==>
      && host in ss.live && host !in ss.leaving && host !in ss.joining && host !in ss.moving
      && (forall h :: h in ss.live ==> h !in ss.unreachable)
      && (forall h :: h in ss.leaving ==> h !in ss.joining && h !in ss.moving)
      && (forall h :: h in ss.joining ==> h !in ss.moving)
  {
    assert host in ToSet(order);
  }

  /** Two hosts with the local id, one up and one down: the order of iteration decides. */
  lemma DuplicateIdUnstable(id: string)
    ensures var ss := StorageService(map["a" := id, "b" := id], ["a"], ["b"], [], [], [], id);
      && Enumerates(["a", "b"], ss.hostIds.Keys) && Answer(ss, ["a", "b"])
      && Enumerates(["b", "a"], ss.hostIds.Keys) && !Answer(ss, ["b", "a"])
  {
    var ss := StorageService(map["a" := id, "b" := id], ["a"], ["b"], [], [], [], id);
    assert ss.hostIds.Keys == {"a", "b"};
    assert ToSet(["a", "b"]) == {"a", "b"} == ToSet(["b", "a"]);
  }
}
