/**
  Admission of Elasticsearch specs and the minimum_master_nodes value generated from an
  admitted spec. Master counts are int32 in the source and wrap around.
 */
module Quorum {
  import opened Common
  import opened ElasticsearchActions

  const WORD := 0x1_0000_0000

  type int32 = x: int | -0x8000_0000 <= x < 0x8000_0000

  /** Two's complement wrap-around of an int32 result. */
  function Wrap32(x: int): int32 {
    (x + 0x8000_0000) % WORD - 0x8000_0000
  }

  lemma WrapAdd(a: int, b: int)
    ensures Wrap32(Wrap32(a) + b) == Wrap32(a + b)
  {
    var q := (a + 0x8000_0000) / WORD;
    assert Wrap32(a) == a - WORD * q;
    assert (a + b + 0x8000_0000 - WORD * q) % WORD == (a + b + 0x8000_0000) % WORD;
  }

  /** Go's division truncates towards zero. */
  function Half(num: int): int {
    if num < 0 then -((-num) / 2) else num / 2
  }

  function CalculateQuorum(num: int32): int32 {
    if num == 0 then 0
    else if num == 1 then 1
    else Half(num) + 1
  }

  /** For at least one master, the quorum is the least number of masters that is a strict majority. */
  lemma QuorumIsLeastMajority(num: int32, q: int)
    requires num >= 1
    ensures 1 <= CalculateQuorum(num) <= num && 2 * CalculateQuorum(num) > num
    ensures 2 * q > num ==> q >= CalculateQuorum(num)
    ensures CalculateQuorum(0) == 0
  {
    assert num == 2 * (num / 2) + num % 2;
  }

  /** `persistence` is the requested size; `replicas` is None when it is not set. */
  datatype NodePool = NodePool(name: string, roles: seq<Role>, replicas: Option<int32>, persistence: Option<int>)

  /** `config` are the errors of the images and the security context, which do not concern the masters. */
  datatype Spec = Spec(pools: seq<NodePool>, minimumMasters: Option<int32>, hasVersion: bool, config: seq<FieldError>)

  datatype FieldError =
    | Duplicate(pool: nat) | BadName(pool: nat) | BadSize(pool: nat) | NoRoles(pool: nat)
    | UnknownRole(pool: nat, role: nat) | NegativeReplicas(pool: nat)
    | NoMasters | ZeroMinimum | BelowQuorum | AboveMasters | NoVersion | ConfigError(message: string)

  /** The true number of masters of the spec. */
  function TotalMasters(pools: seq<NodePool>): int {
    if pools == [] then 0
    else TotalMasters(pools[..|pools| - 1]) + Masters(pools[|pools| - 1])
  }

  function Masters(pool: NodePool): int {
    if Master in pool.roles && pool.replicas.Some? then pool.replicas.value else 0
  }

  /** Every pool of masters says how many it has. */
  predicate Counted(pools: seq<NodePool>) {
    forall p :: p in pools && Master in p.roles ==> p.replicas.Some?
  }

  /**
    CountElasticsearchMasters, and the identical loop of the validation package; None is the nil
    dereference at a master pool whose replicas are not set.
   */
  method CountMasters(pools: seq<NodePool>) returns (r: Option<int32>)
    ensures r == if Counted(pools) then Some(Wrap32(TotalMasters(pools))) else None
  {
    var masters: int32 := 0;
    for i := 0 to |pools|
      invariant masters == Wrap32(TotalMasters(pools[..i])) && Counted(pools[..i])
    {
      assert pools[..i + 1][..i] == pools[..i];
      var isMaster := ContainsRole(pools[i].roles, Master);
      if isMaster {
        if pools[i].replicas.None? {
          assert pools[i] in pools;
          return None;
        }
        WrapAdd(TotalMasters(pools[..i]), pools[i].replicas.value);
        masters := Wrap32(masters + pools[i].replicas.value);
      }
    }
    assert pools[..|pools|] == pools;
    return Some(masters);
  }

  // ----- Admission -----

  predicate ValidPool(pool: NodePool, dns: string -> bool) {
    && dns(pool.name)
    && (pool.persistence.Some? ==> pool.persistence.value > 0)
    && pool.roles != [] && (forall r :: r in pool.roles ==> !r.Unsupported?)
    && (pool.replicas.Some? ==> pool.replicas.value >= 0)
  }

  predicate ValidMinimum(minimum: Option<int32>, masters: int32) {
    masters != 0
    && (minimum.Some? ==> minimum.value != 0 && CalculateQuorum(masters) <= minimum.value <= masters)
  }

  predicate Admitted(spec: Spec, dns: string -> bool) {
    && spec.config == [] && Counted(spec.pools)
    && (forall i, j :: 0 <= i < j < |spec.pools| ==> spec.pools[i].name != spec.pools[j].name)
    && (forall i :: 0 <= i < |spec.pools| ==> ValidPool(spec.pools[i], dns))
    && ValidMinimum(spec.minimumMasters, Wrap32(TotalMasters(spec.pools)))
    && spec.hasVersion
  }

  method ValidateNodePool(pool: NodePool, index: nat, dns: string -> bool) returns (errs: seq<FieldError>)
    ensures errs == [] <==> ValidPool(pool, dns)
  {
    errs := if dns(pool.name) then [] else [BadName(index)];
    if pool.persistence.Some? && pool.persistence.value <= 0 {
      errs := errs + [BadSize(index)];
    }
    if pool.roles == [] {
      errs := errs + [NoRoles(index)];
    }
    ghost var before := errs;
    for j := 0 to |pool.roles|
      invariant errs == [] <==> before == [] && forall r :: r in pool.roles[..j] ==> !r.Unsupported?
    {
      if pool.roles[j].Unsupported? {
        errs := errs + [UnknownRole(index, j)];
      }
    }
    assert pool.roles[..|pool.roles|] == pool.roles;
    if pool.replicas.Some? && pool.replicas.value < 0 {
      errs := errs + [NegativeReplicas(index)];
    }
  }

  /**
    ValidateElasticsearchClusterSpec: no error is reported exactly when the spec is admissible, and
    None, the nil dereference of the count, exactly when some master pool has no replicas set.
   */
  method ValidateSpec(spec: Spec, dns: string -> bool) returns (r: Option<seq<FieldError>>)
    ensures r == Some([]) <==> Admitted(spec, dns)
    ensures r.None? <==> !Counted(spec.pools)
  {
    var errs := spec.config;
    var allNames: set<string> := {};
    for i := 0 to |spec.pools|
      invariant allNames == set j | 0 <= j < i :: spec.pools[j].name
      invariant errs == [] <==>
        && spec.config == []
        && (forall p, q :: 0 <= p < q < i ==> spec.pools[p].name != spec.pools[q].name)
        && (forall p :: 0 <= p < i ==> ValidPool(spec.pools[p], dns))
    {
      var name := spec.pools[i].name;
      if name in allNames {
        errs := errs + [Duplicate(i)];
      } else {
        allNames := allNames + {name};
      }
      var more := ValidateNodePool(spec.pools[i], i, dns);
      errs := errs + more;
    }
    var count := CountMasters(spec.pools);
    if count.None? {
      return None;
    }
    var numMasters := count.value;
    var quorum := CalculateQuorum(numMasters);
    if numMasters == 0 {
      errs := errs + [NoMasters];
    } else if spec.minimumMasters.None? {
    } else if spec.minimumMasters.value == 0 {
      errs := errs + [ZeroMinimum];
    } else if spec.minimumMasters.value < quorum {
      errs := errs + [BelowQuorum];
    } else if spec.minimumMasters.value > numMasters {
      errs := errs + [AboveMasters];
    }
    if !spec.hasVersion {
      errs := errs + [NoVersion];
    }
    return Some(errs);
  }

  // ----- No split brain -----

  /** The value generateConfig writes as minimum_master_nodes. */
  function MinimumMasterNodes(spec: Spec): int32 {
    if spec.minimumMasters.Some? then spec.minimumMasters.value
    else CalculateQuorum(Wrap32(TotalMasters(spec.pools)))
  }

  method GenerateMinimumMasters(spec: Spec) returns (minimum: Option<int32>)
    ensures minimum == if spec.minimumMasters.Some? || Counted(spec.pools) then Some(MinimumMasterNodes(spec)) else None
  {
    if spec.minimumMasters.Some? {
      return spec.minimumMasters;
    }
    var total := CountMasters(spec.pools);
    return if total.Some? then Some(CalculateQuorum(total.value)) else None;
  }

  /** `k` of `n` masters: enough masters exist to elect one, and two elections always share a voter. */
  predicate SafeQuorum(k: int, n: int) {
    1 <= k <= n && 2 * k > n
  }

  lemma {:induction false} MastersNotNegative(pools: seq<NodePool>)
    requires forall i :: 0 <= i < |pools| && pools[i].replicas.Some? ==> pools[i].replicas.value >= 0
    ensures TotalMasters(pools) >= 0
  {
    if pools != [] {
      MastersNotNegative(pools[..|pools| - 1]);
    }
  }

  /**
    The generated value of an admitted spec is a safe quorum of its masters if and only if the
    number of masters fits an int32; beyond that the count has wrapped and it never is. It is the
    value of the spec if there is one, and otherwise the least safe quorum.
   */
  lemma AdmittedQuorumSafe(spec: Spec, dns: string -> bool)
    requires Admitted(spec, dns)
    ensures SafeQuorum(MinimumMasterNodes(spec), TotalMasters(spec.pools))
            <==> TotalMasters(spec.pools) < 0x8000_0000
    ensures spec.minimumMasters.Some? ==> MinimumMasterNodes(spec) == spec.minimumMasters.value
    ensures spec.minimumMasters.None? && TotalMasters(spec.pools) < 0x8000_0000 ==>
      forall q :: SafeQuorum(q, TotalMasters(spec.pools)) ==> MinimumMasterNodes(spec) <= q
  {
    var total := TotalMasters(spec.pools);
    var wrapped := Wrap32(total);
    assert forall i :: 0 <= i < |spec.pools| ==> ValidPool(spec.pools[i], dns);
    MastersNotNegative(spec.pools);
    if wrapped >= 1 {
      QuorumIsLeastMajority(wrapped, 0);
      forall q | SafeQuorum(q, total) && wrapped == total ensures CalculateQuorum(wrapped) <= q {
        QuorumIsLeastMajority(wrapped, q);
      }
    }
  }

  /** Three master pools of admissible size whose total wraps to one: a single master would elect itself. */
  lemma WrappedQuorumUnsafe(dns: string -> bool)
    requires dns("a") && dns("b") && dns("c")
    ensures var spec := Spec([NodePool("a", [Master], Some(0x7FFF_FFFF), None),
                              NodePool("b", [Master], Some(0x7FFF_FFFF), None),
                              NodePool("c", [Master], Some(3), None)], None, true, []);
      Admitted(spec, dns) && TotalMasters(spec.pools) == WORD + 1 && MinimumMasterNodes(spec) == 1
  {
    var a, b, c := NodePool("a", [Master], Some(0x7FFF_FFFF), None), NodePool("b", [Master], Some(0x7FFF_FFFF), None),
                   NodePool("c", [Master], Some(3), None);
    var spec := Spec([a, b, c], None, true, []);
    assert [a, b, c][..2] == [a, b] && [a, b][..1] == [a] && [a][..0] == [];
    assert TotalMasters([a]) == 0x7FFF_FFFF;
    assert TotalMasters([a, b]) == 2 * 0x7FFF_FFFF;
    assert TotalMasters(spec.pools) == WORD + 1;
    assert ValidPool(a, dns) && ValidPool(b, dns) && ValidPool(c, dns);
  }

  /** Two groups of at least k masters share a master whenever 2k exceeds the number of masters. */
  lemma QuorumsIntersect<T>(masters: set<T>, a: set<T>, b: set<T>, k: nat)
    requires a <= masters && b <= masters && |a| >= k && |b| >= k
    requires SafeQuorum(k, |masters|)
    ensures exists m :: m in a && m in b
  {
    if a * b == {} {
      assert |a + b| == |a| + |b|;
      SubsetSize(a + b, masters);
    } else {
      var m :| m in a * b;
    }
  }

  lemma {:induction false} SubsetSize<T>(a: set<T>, b: set<T>)
    requires a <= b
    ensures |a| <= |b|
  {
    if a != {} {
      var x :| x in a;
      SubsetSize(a - {x}, b - {x});
    }
  }

  function Numbered(lo: int, hi: int): (s: set<int>)
    requires lo <= hi
    ensures |s| == hi - lo
    ensures forall x :: x in s <==> lo <= x < hi
    decreases hi - lo
  {
    if lo == hi then {} else Numbered(lo, hi - 1) + {hi - 1}
  }

  /** And when it does not, the masters split into two disjoint groups that may both elect. */
  lemma SmallerValueSplits(k: nat, n: nat)
    requires 2 * k <= n
    ensures exists a: set<int>, b: set<int> ::
      a <= Numbered(0, n) && b <= Numbered(0, n) && |a| == k && |b| == k && a !! b
  {
    var a, b := Numbered(0, k), Numbered(k, 2 * k);
    assert a <= Numbered(0, n) && b <= Numbered(0, n) && a !! b;
  }
}
