/**
 * Helpers of the vendored container library (`utils.go`): the FNV-1a key hash
 * and the worker-lane choice built on it, the HTTP service-port classifier,
 * the `namespace:name` correlation key, the `namespace/name` key splitter,
 * and two slice helpers.
 */
module ContainerUtils {
  import opened GoStrings

  /** Go's `int32`. */
  newtype int32 = x: int | -0x8000_0000 <= x < 0x8000_0000

  // ---------------------------------------------------------------------------
  // Hash: 32-bit FNV-1a over the key's bytes (`hash/fnv.New32a`)
  // ---------------------------------------------------------------------------

  const FnvOffsetBasis: bv32 := 2166136261
  const FnvPrime: bv32 := 16777619

  /** One FNV-1a round: XOR the byte in, then multiply by the prime modulo 2^32. */
  function FnvStep(h: bv32, b: bv8): bv32 {
    (h ^ (b as bv32)) * FnvPrime
  }

  /** The hash state after feeding `bytes`, in order, to a hasher in state `h`. */
  function FnvFrom(h: bv32, bytes: seq<bv8>): bv32
    decreases |bytes|
  {
    if bytes == [] then h else FnvFrom(FnvStep(h, bytes[0]), bytes[1..])
  }

  /** Feeding one more byte is one more round on the state reached so far. */
  lemma {:induction false} FnvFromSnoc(h: bv32, bytes: seq<bv8>, b: bv8)
    ensures FnvFrom(h, bytes + [b]) == FnvStep(FnvFrom(h, bytes), b)
    decreases |bytes|
  {
    if bytes == [] {
      assert [] + [b] == [b];
    } else {
      assert (bytes + [b])[1..] == bytes[1..] + [b];
      FnvFromSnoc(FnvStep(h, bytes[0]), bytes[1..], b);
    }
  }

  /** Writing a key in two chunks gives the same state as writing it at once. */
  lemma {:induction false} FnvFromConcat(h: bv32, a: seq<bv8>, b: seq<bv8>)
    ensures FnvFrom(h, a + b) == FnvFrom(FnvFrom(h, a), b)
    decreases |a|
  {
    if a == [] {
      assert a + b == b;
    } else {
      assert (a + b)[1..] == a[1..] + b;
      FnvFromConcat(FnvStep(h, a[0]), a[1..], b);
    }
  }

  /** The 32-bit FNV-1a hash of `bytes`. */
  function Fnv1a(bytes: seq<bv8>): bv32 {
    FnvFrom(FnvOffsetBasis, bytes)
  }

  /**
   * FNV-1a as the standard states it: start from the offset basis and, for each
   * byte in turn, XOR it in and multiply by the prime.
   */
  lemma Fnv1aRecurrence(bytes: seq<bv8>)
    ensures bytes == [] ==> Fnv1a(bytes) == 2166136261
    ensures bytes != [] ==> Fnv1a(bytes) == FnvStep(Fnv1a(bytes[..|bytes| - 1]), bytes[|bytes| - 1])
  {
    if bytes != [] {
      FnvFromSnoc(FnvOffsetBasis, bytes[..|bytes| - 1], bytes[|bytes| - 1]);
      assert bytes == bytes[..|bytes| - 1] + [bytes[|bytes| - 1]];
    }
  }

  /** The published test vector: FNV-1a-32 of "a" is 0xe40c292c. */
  lemma FnvTestVector()
    ensures Fnv1a([0x61]) == 0xe40c292c
  {
    assert Fnv1a([0x61]) == FnvStep(FnvOffsetBasis, 0x61);
  }

  /** `Hash(s)`: a fresh FNV-1a hasher, the key's bytes written in, the 32-bit sum read out. */
  method Hash(key: seq<bv8>) returns (h: bv32)
    ensures h == Fnv1a(key)
  {
    h := FnvOffsetBasis;
    for i := 0 to |key|
      invariant h == FnvFrom(FnvOffsetBasis, key[..i])
    {
      FnvFromSnoc(FnvOffsetBasis, key[..i], key[i]);
      assert key[..i + 1] == key[..i] + [key[i]];
      h := FnvStep(h, key[i]);
    }
    assert key[..|key|] == key;
  }

  // ---------------------------------------------------------------------------
  // Bkt: worker-lane choice by masking the hash with `num_workers - 1`
  // ---------------------------------------------------------------------------

  /** 2^k as a 32-bit value. */
  function Pow2(k: nat): bv32
    requires k < 32
  {
    (1 as bv32) << k
  }

  ghost predicate IsPowerOfTwo(n: bv32) {
    exists k: nat | k < 32 :: n == Pow2(k)
  }

  /** A mask never yields more than itself. */
  lemma MaskAtMost(h: bv32, m: bv32)
    ensures h & m <= m
  {
  }

  /** A non-zero worker count minus one does not wrap around. */
  lemma PredecessorBelow(n: bv32)
    requires n != 0
    ensures n - 1 < n
  {
  }

  /** Masking with `n - 1` keeps a value below `n`. */
  lemma MaskBelow(h: bv32, n: bv32)
    requires n != 0
    ensures h & (n - 1) < n
  {
    MaskAtMost(h, n - 1);
    PredecessorBelow(n);
  }

  /**
   * The lane of a hash value among `numWorkers` lanes. The subtraction is
   * unsigned 32-bit, so a worker count of 0 masks with all ones and gives the
   * hash itself.
   */
  function Lane(h: bv32, numWorkers: bv32): (lane: bv32)
    ensures numWorkers != 0 ==> lane < numWorkers
    ensures numWorkers == 1 ==> lane == 0
    ensures numWorkers == 0 ==> lane == h
  {
    var mask := numWorkers - 1;
    if numWorkers == 0 then
      assert mask == 0xFFFF_FFFF;
      h & mask
    else if numWorkers == 1 then
      assert mask == 0;
      h & mask
    else
      MaskBelow(h, numWorkers);
      h & mask
  }

  /** `Bkt(key, num_workers)`: the worker lane of a key, from its hash. */
  function Bkt(key: seq<bv8>, numWorkers: bv32): (lane: bv32)
    ensures numWorkers != 0 ==> lane < numWorkers
    ensures numWorkers == 1 ==> lane == 0
    ensures numWorkers == 0 ==> lane == Fnv1a(key)
  {
    Lane(Fnv1a(key), numWorkers)
  }

  /**
   * With a power-of-two worker count the mask changes no lane number, so a hash
   * whose low bits spell a lane lands in that lane: every lane is in use.
   */
  lemma BktCoversLanes(numWorkers: bv32, lane: bv32)
    requires IsPowerOfTwo(numWorkers) && lane < numWorkers
    ensures lane & (numWorkers - 1) == lane
  {
    var k: nat :| k < 32 && numWorkers == Pow2(k);
    assert lane < Pow2(k);
  }

  /** With 3 workers the mask is 0b10, so lane 1 is never chosen. */
  lemma BktThreeWorkersSkipsLaneOne(h: bv32)
    ensures Lane(h, 3) != 1
  {
  }

  // ---------------------------------------------------------------------------
  // IsSvcHttp: HTTP classification of a service port
  // ---------------------------------------------------------------------------

  /** The well-known HTTP and HTTPS ports. */
  const HttpPorts: set<int32> := {80, 443, 8080, 8443}

  /** The Istio port-naming convention for HTTP: "http" alone or "http-<suffix>". */
  ghost predicate IstioHttpName(name: string) {
    name == "http" || exists suffix: string :: name == "http-" + suffix
  }

  /** `IsSvcHttp(svc_name, port)`: true for an HTTP-named port or a well-known HTTP port. */
  function IsSvcHttp(svcName: string, port: int32): (r: bool)
    ensures r <==> IstioHttpName(svcName) || port in HttpPorts
  {
    if svcName == "http" then true
    else if HasPrefix(svcName, "http-") then
      assert svcName == "http-" + svcName[5..];
      true
    else if port == 80 || port == 443 || port == 8080 || port == 8443 then true
    else false
  }

  // ---------------------------------------------------------------------------
  // CrudHashKey: the `namespace:name` correlation key
  // ---------------------------------------------------------------------------

  /** The metadata of a cluster object handed to `CrudHashKey`: its kind, namespace and name. */
  datatype K8sObject = K8sObject(kind: string, namespace: string, name: string)

  /** The object kinds `CrudHashKey` knows. */
  const KeyedKinds: set<string> := {"Endpoints", "Service", "Ingress"}

  /**
   * `CrudHashKey(obj_type, obj)`: "namespace:name" for the known kinds, ":" otherwise.
   * The source asserts the object's dynamic type from `obj_type`, which panics on a
   * mismatch; callers pass matching pairs.
   */
  function CrudHashKey(objType: string, obj: K8sObject): (key: string)
    requires objType in KeyedKinds ==> obj.kind == objType
    ensures objType in KeyedKinds ==> key == obj.namespace + [':'] + obj.name
    ensures objType !in KeyedKinds ==> key == ":"
  {
    match objType
    case "Endpoints" => obj.namespace + ":" + obj.name
    case "Service" => obj.namespace + ":" + obj.name
    case "Ingress" => obj.namespace + ":" + obj.name
    case _ => ":"
  }

  /**
   * When namespaces contain no ':' (as cluster namespace names never do), the
   * correlation key of a known kind determines the namespace and the name, so
   * distinct objects get distinct keys.
   */
  lemma CrudHashKeyInjective(t1: string, o1: K8sObject, t2: string, o2: K8sObject)
    requires t1 in KeyedKinds && o1.kind == t1 && ':' !in o1.namespace
    requires t2 in KeyedKinds && o2.kind == t2 && ':' !in o2.namespace
    requires CrudHashKey(t1, o1) == CrudHashKey(t2, o2)
    ensures o1.namespace == o2.namespace && o1.name == o2.name
  {
    UniqueSplitAt(o1.namespace, o1.name, o2.namespace, o2.name, ':');
  }

  // ---------------------------------------------------------------------------
  // ExtractNamespaceObjectName: splitting a `namespace/name` key
  // ---------------------------------------------------------------------------

  /**
   * `ExtractNamespaceObjectName(key)`: the two halves of a key with exactly one
   * '/', and two empty strings for any other key.
   */
  function ExtractNamespaceObjectName(key: string): (r: (string, string))
    ensures multiset(key)['/'] == 1 ==> key == r.0 + "/" + r.1 && '/' !in r.0 && '/' !in r.1
    ensures multiset(key)['/'] != 1 ==> r == ("", "")
  {
    var segments := Split(key, "/");
    SplitCharCount(key, '/');
    if |segments| == 2 then
      SplitJoin(key, "/");
      SplitPiecesFree(key, "/");
      ContainsChar(segments[0], '/');
      ContainsChar(segments[1], '/');
      assert segments[1..] == [segments[1]];
      (segments[0], segments[1])
    else
      ("", "")
  }

  /** Round trip: a namespace and a name without '/' come back out of their joined key. */
  lemma ExtractNamespaceObjectNameRoundTrip(ns: string, name: string)
    requires '/' !in ns && '/' !in name
    ensures ExtractNamespaceObjectName(ns + "/" + name) == (ns, name)
  {
    var key := ns + "/" + name;
    assert multiset(key) == multiset(ns) + multiset{'/'} + multiset(name);
    var r := ExtractNamespaceObjectName(key);
    UniqueSplitAt(r.0, r.1, ns, name, '/');
  }

  // ---------------------------------------------------------------------------
  // Remove: deleting the first occurrence of an item from a slice
  // ---------------------------------------------------------------------------

  /** The slice with the first occurrence of `item` taken out, the rest in order. */
  function RemoveFirst(s: seq<string>, item: string): seq<string> {
    if s == [] then []
    else if s[0] == item then s[1..]
    else [s[0]] + RemoveFirst(s[1..], item)
  }

  /** Removing the first occurrence at `i` splices out exactly index `i`. */
  lemma {:induction false} RemoveFirstAt(s: seq<string>, item: string, i: nat)
    requires i < |s| && s[i] == item && item !in s[..i]
    ensures RemoveFirst(s, item) == s[..i] + s[i + 1..]
  {
    if i > 0 {
      assert s[1..][..i - 1] == s[1..i];
      assert item !in s[1..][..i - 1];
      RemoveFirstAt(s[1..], item, i - 1);
      assert s[..i] == [s[0]] + s[1..][..i - 1];
    }
  }

  /** An absent item leaves the slice as it was. */
  lemma {:induction false} RemoveFirstAbsent(s: seq<string>, item: string)
    requires item !in s
    ensures RemoveFirst(s, item) == s
  {
    if s != [] {
      RemoveFirstAbsent(s[1..], item);
    }
  }

  /**
   * Exactly one copy of `item` goes, and only if there was one: the length drops
   * by one precisely when `item` was present, and every other element keeps its count.
   */
  lemma {:induction false} RemoveFirstMultiset(s: seq<string>, item: string)
    ensures multiset(RemoveFirst(s, item)) == multiset(s) - multiset{item}
    ensures |RemoveFirst(s, item)| == if item in s then |s| - 1 else |s|
  {
    if s != [] {
      assert s == [s[0]] + s[1..];
      RemoveFirstMultiset(s[1..], item);
      if s[0] != item {
        assert multiset(s) == multiset{s[0]} + multiset(s[1..]);
        assert item in s <==> item in s[1..];
      }
    }
  }

  /**
   * `Remove(arr, item)`. The slice is the array `arr` (length `arr.Length`); the
   * result is the slice `arr[..n]`. As with Go's `append(arr[:i], arr[i+1:]...)`,
   * the tail is shifted left inside the caller's own backing array, and the
   * last slot keeps its old value.
   */
  method Remove(arr: array<string>, item: string) returns (n: nat)
    modifies arr
    ensures n <= arr.Length
    ensures arr[..n] == RemoveFirst(old(arr[..]), item)
    ensures item !in old(arr[..]) ==> n == arr.Length && arr[..] == old(arr[..])
    ensures item in old(arr[..]) ==> n == arr.Length - 1 && arr[n] == old(arr[n])
  {
    ghost var s := arr[..];
    var i := 0;
    while i < arr.Length
      invariant 0 <= i <= arr.Length
      invariant arr[..] == s
      invariant item !in s[..i]
    {
      if arr[i] == item {
        RemoveFirstAt(s, item, i);
        var j := i;
        while j < arr.Length - 1
          invariant i <= j <= arr.Length - 1
          invariant arr[..j] == s[..i] + s[i + 1..j + 1]
          invariant arr[j..] == s[j..]
        {
          arr[j] := arr[j + 1];
          j := j + 1;
        }
        assert arr[..arr.Length - 1] == s[..i] + s[i + 1..];
        return arr.Length - 1;
      }
      assert s[..i + 1] == s[..i] + [s[i]];
      i := i + 1;
    }
    assert s[..i] == s;
    RemoveFirstAbsent(s, item);
    return arr.Length;
  }

  // ---------------------------------------------------------------------------
  // HasElem: membership test on a dynamically typed value
  // ---------------------------------------------------------------------------

  /** A dynamically typed argument: a slice of comparable elements, or anything else. */
  datatype Dynamic<T> = Slice(items: seq<T>) | NotSlice

  /** `HasElem(s, elem)`: some element of the slice equals `elem`; never true of a non-slice. */
  method HasElem<T(==)>(s: Dynamic<T>, elem: T) returns (found: bool)
    ensures found <==> s.Slice? && elem in s.items
  {
    if s.Slice? {
      for i := 0 to |s.items|
        invariant elem !in s.items[..i]
      {
        if s.items[i] == elem {
          return true;
        }
        assert s.items[..i + 1] == s.items[..i] + [s.items[i]];
      }
      assert s.items[..|s.items|] == s.items;
    }
    return false;
  }
}
