/** The kernel registry (include/core/kernel.h): a table from a
    (device, operator type) key to the kernel registered for it, with a
    running count of registrations. */
module Kernels {
  import opened Wrappers

  /** A device kind, as the device runtime enumerates it. */
  type Device = int
  /** The underlying value of an operator type. */
  type OpType = int
  /** A kernel instance, identified by its address. */
  type KernelId = nat

  /** The composite lookup key: the same operator type on two devices is
      two distinct keys. */
  datatype KernelAttrs = KernelAttrs(device: Device, opType: OpType)

  /** What the registry keeps per key: the kernel, its name, and the
      sequence number it was registered under. */
  datatype KernelRecord = KernelRecord(kernel: KernelId, name: string, id: int)

  datatype RegistryError =
    | AlreadyRegistered   // "Kernel already registered"
    | NotFound            // "Kernel not found"
    | OutOfRange          // `map::at` on an absent key

  /** Sequence numbering of a table after n registrations: one entry per
      registration, every number within 1..n, and no number used twice. */
  ghost predicate WellNumbered(kernels: map<KernelAttrs, KernelRecord>, n: int) {
    && n == |kernels|
    && (forall k :: k in kernels ==> 1 <= kernels[k].id <= n)
    && (forall k1, k2 :: k1 in kernels && k2 in kernels && kernels[k1].id == kernels[k2].id ==> k1 == k2)
  }

  /** Adding a fresh key numbered n + 1 keeps the numbering. */
  lemma RegisterKeepsNumbering(kernels: map<KernelAttrs, KernelRecord>, n: int,
                               key: KernelAttrs, kernel: KernelId, name: string)
    requires WellNumbered(kernels, n) && key !in kernels
    ensures WellNumbered(kernels[key := KernelRecord(kernel, name, n + 1)], n + 1)
  {
    var m := kernels[key := KernelRecord(kernel, name, n + 1)];
    assert m.Keys == kernels.Keys + {key};
  }

  /** The sequence numbers in use. */
  ghost function SeqNumbers(kernels: map<KernelAttrs, KernelRecord>): set<int> {
    set k | k in kernels :: kernels[k].id
  }

  /** The numbers 1..n. */
  ghost function OneTo(n: nat): (r: set<int>)
    ensures |r| == n
    ensures forall i :: i in r <==> 1 <= i <= n
  {
    if n == 0 then {} else OneTo(n - 1) + {n}
  }

  /** Distinct keys carry distinct numbers, so there are as many numbers
      in use as entries. */
  lemma {:induction false} InjectiveNumbersCount(kernels: map<KernelAttrs, KernelRecord>)
    requires forall k1, k2 :: k1 in kernels && k2 in kernels && kernels[k1].id == kernels[k2].id ==> k1 == k2
    ensures |SeqNumbers(kernels)| == |kernels|
    decreases |kernels|
  {
    if kernels != map[] {
      var k :| k in kernels;
      var rest := kernels - {k};
      InjectiveNumbersCount(rest);
      assert SeqNumbers(kernels) == SeqNumbers(rest) + {kernels[k].id} by {
        forall i | i in SeqNumbers(kernels) ensures i in SeqNumbers(rest) + {kernels[k].id} {
          var j :| j in kernels && kernels[j].id == i;
          if j != k {
            assert j in rest;
          }
        }
        forall i | i in SeqNumbers(rest) ensures i in SeqNumbers(kernels) {
          var j :| j in rest && rest[j].id == i;
          assert j in kernels;
        }
      }
      assert kernels[k].id !in SeqNumbers(rest);
      assert |rest| == |kernels| - 1 by {
        assert rest.Keys == kernels.Keys - {k};
      }
    }
  }

  /** A well-numbered table uses exactly the numbers 1..n. */
  lemma NumbersAreOneToN(kernels: map<KernelAttrs, KernelRecord>, n: nat)
    requires WellNumbered(kernels, n)
    ensures SeqNumbers(kernels) == OneTo(n)
  {
    var used, all := SeqNumbers(kernels), OneTo(n);
    InjectiveNumbersCount(kernels);
    assert used <= all;
    assert |all - used| == |all| - |used|;
    assert all - used == {};
    assert all <= used;
  }

  class KernelRegistry {
    var kernels: map<KernelAttrs, KernelRecord>
    var nKernels: int

    ghost predicate Valid()
      reads this
    {
      WellNumbered(kernels, nKernels)
    }

    constructor ()
      ensures Valid()
      ensures kernels == map[] && nKernels == 0
    {
      kernels := map[];
      nKernels := 0;
    }

    /** `registerKernel`: fails on a key already present; otherwise stores
        the kernel under the next sequence number and answers true. */
    method RegisterKernel(key: KernelAttrs, kernel: KernelId, name: string)
      returns (r: Result<bool, RegistryError>)
      requires Valid()
      modifies this
      ensures Valid()
      ensures key in old(kernels) ==> r == Err(AlreadyRegistered) && kernels == old(kernels) && nKernels == old(nKernels)
      ensures key !in old(kernels) ==>
        && r == Ok(true)
        && kernels == old(kernels)[key := KernelRecord(kernel, name, old(nKernels) + 1)]
        && nKernels == old(nKernels) + 1
    {
      if key in kernels {
        return Err(AlreadyRegistered);
      }
      RegisterKeepsNumbering(kernels, nKernels, key, kernel, name);
      kernels, nKernels := kernels[key := KernelRecord(kernel, name, nKernels + 1)], nKernels + 1;
      r := Ok(true);
    }

    /** `getKernel`: the kernel registered under the key, or a failure. */
    method GetKernel(attrs: KernelAttrs) returns (r: Result<KernelId, RegistryError>)
      ensures r.Ok? <==> attrs in kernels
      ensures r.Ok? ==> r.value == kernels[attrs].kernel
      ensures r.Err? ==> r.error == NotFound
    {
      if attrs !in kernels {
        return Err(NotFound);
      }
      return Ok(kernels[attrs].kernel);
    }

    /** `getKernelItem`: the whole record under the key; `map::at` throws
        on an absent key. */
    method GetKernelItem(attrs: KernelAttrs) returns (r: Result<KernelRecord, RegistryError>)
      ensures r.Ok? <==> attrs in kernels
      ensures r.Ok? ==> r.value == kernels[attrs]
      ensures r.Err? ==> r.error == OutOfRange
    {
      if attrs !in kernels {
        return Err(OutOfRange);
      }
      return Ok(kernels[attrs]);
    }
  }

  /** A start-up sequence on a fresh registry: the same operator type
      registered for two devices gives two independent entries, a second
      registration of a key fails, lookups return exactly the registered
      kernels, and a key never registered is not found. */
  method RegistrationScenario(d1: Device, d2: Device, op: OpType, k1: KernelId, k2: KernelId)
    returns (first: Result<bool, RegistryError>, second: Result<bool, RegistryError>,
             again: Result<bool, RegistryError>,
             got1: Result<KernelId, RegistryError>, got2: Result<KernelId, RegistryError>,
             missing: Result<KernelId, RegistryError>, item: Result<KernelRecord, RegistryError>)
    requires d1 != d2
    ensures first == Ok(true) && second == Ok(true)
    ensures again == Err(AlreadyRegistered)
    ensures got1 == Ok(k1) && got2 == Ok(k2)
    ensures missing == Err(NotFound)
    ensures item == Ok(KernelRecord(k2, "second", 2))
  {
    var registry := new KernelRegistry();
    first := registry.RegisterKernel(KernelAttrs(d1, op), k1, "first");
    second := registry.RegisterKernel(KernelAttrs(d2, op), k2, "second");
    again := registry.RegisterKernel(KernelAttrs(d1, op), k2, "again");
    got1 := registry.GetKernel(KernelAttrs(d1, op));
    got2 := registry.GetKernel(KernelAttrs(d2, op));
    missing := registry.GetKernel(KernelAttrs(d1, op + 1));
    item := registry.GetKernelItem(KernelAttrs(d2, op));
  }
}
