/** The catalogue of runtime packages (pkg/contract/package_catalog.go). */
module Catalog {
  import opened Text
  import opened Names
  import opened Checked

  datatype Allocation = Allocation(
    deviceClass: string, claimName: string, claimRequest: string, count: int,
    capacity: map<string, string>, selectors: seq<string>)

  datatype VirtualGPU = VirtualGPU(provider: string, memory: string, cores: int)

  datatype Package = Package(
    id: string, specName: string, cpu: string, memory: string, gpu: int,
    virtualGPU: VirtualGPU, allocation: Allocation)

  /** Quantity parsing is library code: the value of a quantity, if the text is one. */
  type Quantity = string -> Option<int>

  const HAMI := "hami"
  const HAMI_DEVICE_CLASS := "hami-core-gpu.project-hami.io"
  const MEMORY_KEY := "memory"
  const CORES_KEY := "cores"
  const CLAIM_REQUEST := "gpu"

  // ---------------------------------------------------------------- HAMi capacity

  predicate Conflicts(capacity: map<string, string>, key: string, value: string) {
    exists k :: k in capacity && TrimSpace(k) == key && TrimSpace(capacity[k]) != value
  }

  /** mergePackageDRACapacity: other spellings of the key give way to the key itself. */
  function Merge(capacity: map<string, string>, key: string, value: string): Option<map<string, string>> {
    if Conflicts(capacity, key, value) then None
    else Some((map k | k in capacity && (k == key || TrimSpace(k) != key) :: capacity[k])[key := value])
  }

  method MergePackageDRACapacity(capacity: map<string, string>, key: string, value: string)
    returns (ok: bool, merged: map<string, string>)
    ensures ok <==> Merge(capacity, key, value).Some?
    ensures ok ==> merged == Merge(capacity, key, value).value
  {
    merged := capacity;
    var rest := capacity.Keys;
    while rest != {}
      invariant rest <= capacity.Keys
      invariant forall k :: k in capacity && k !in rest && TrimSpace(k) == key ==> TrimSpace(capacity[k]) == value
      invariant forall k :: k in merged <==> k in capacity && (k in rest || k == key || TrimSpace(k) != key)
      invariant forall k :: k in merged ==> merged[k] == capacity[k]
    {
      var existing :| existing in rest;
      rest := rest - {existing};
      if TrimSpace(existing) != key {
        continue;
      }
      if TrimSpace(capacity[existing]) != value {
        assert Conflicts(capacity, key, value);
        return false, merged;
      }
      if existing != key {
        merged := merged - {existing};
      }
    }
    merged := merged[key := value];
    return true, merged;
  }

  /** A fixed point: the key already has the value, and no other spelling occurs. */
  lemma MergeFixed(capacity: map<string, string>, key: string, value: string)
    requires key in capacity && capacity[key] == value && TrimSpace(value) == value
    requires forall k :: k in capacity ==> Trimmed(k)
    ensures Merge(capacity, key, value) == Some(capacity)
  {
    forall k | k in capacity ensures TrimSpace(k) == k {
      TrimmedIsFixed(k);
    }
    assert !Conflicts(capacity, key, value);
    assert (map k | k in capacity && (k == key || TrimSpace(k) != key) :: capacity[k])[key := value] == capacity;
  }

  // ------------------------------------------------------------ normalised capacity

  ghost predicate DistinctTrimmed(capacity: map<string, string>) {
    forall a, b :: a in capacity && b in capacity && TrimSpace(a) == TrimSpace(b) ==> a == b
  }

  predicate CapacityOk(quantity: Quantity, capacity: map<string, string>) {
    forall k :: k in capacity ==> EntryOk(quantity, k, capacity[k])
  }

  ghost function SomeKey(capacity: map<string, string>, name: string): (k: string)
    requires exists k :: k in capacity && TrimSpace(k) == name
    ensures k in capacity && TrimSpace(k) == name
  {
    var k :| k in capacity && TrimSpace(k) == name;
    k
  }

  /** Keys and values trimmed; where two keys trim to the same name, one of them decides. */
  ghost function TrimmedCapacity(capacity: map<string, string>): map<string, string> {
    var names := set k | k in capacity :: TrimSpace(k);
    map n | n in names :: TrimSpace(capacity[SomeKey(capacity, n)])
  }

  predicate EntryOk(quantity: Quantity, key: string, value: string) {
    TrimSpace(key) != "" && quantity(TrimSpace(value)).Some?
  }

  /** The entries of the keys in `done` are in r, trimmed; `from` says which key each entry
      came from. */
  ghost predicate Collected(trim: string -> string, capacity: map<string, string>, done: set<string>,
                            r: map<string, string>, from: map<string, string>)
  {
    && done <= capacity.Keys
    && (forall k :: k in done ==> trim(k) in r)
    && from.Keys == r.Keys
    && (forall n :: n in r ==> from[n] in done && trim(from[n]) == n && r[n] == trim(capacity[from[n]]))
  }

  lemma CollectOne(trim: string -> string, capacity: map<string, string>, done: set<string>,
                   r: map<string, string>, from: map<string, string>, key: string)
    requires Collected(trim, capacity, done, r, from) && key in capacity
    ensures Collected(trim, capacity, done + {key}, r[trim(key) := trim(capacity[key])], from[trim(key) := key])
  {
  }

  /** The loop over the capacity map, in whatever order the map yields its keys. */
  method CollectEntries(trim: string -> string, good: (string, string) -> bool, capacity: map<string, string>)
    returns (ok: bool, r: map<string, string>, ghost from: map<string, string>)
    ensures ok <==> forall k :: k in capacity ==> good(k, capacity[k])
    ensures ok ==> Collected(trim, capacity, capacity.Keys, r, from)
  {
    r, from := map[], map[];
    var rest := capacity.Keys;
    ghost var done: set<string> := {};
    while rest != {}
      invariant rest <= capacity.Keys && done == capacity.Keys - rest
      invariant Collected(trim, capacity, done, r, from)
      invariant forall k :: k in done ==> good(k, capacity[k])
    {
      var key :| key in rest;
      if !good(key, capacity[key]) {
        return false, r, from;
      }
      CollectOne(trim, capacity, done, r, from, key);
      done, rest := done + {key}, rest - {key};
      r := r[trim(key) := trim(capacity[key])];
      from := from[trim(key) := key];
    }
    assert done == capacity.Keys;
    return true, r, from;
  }

  method NormalizeCapacity(quantity: Quantity, capacity: map<string, string>) returns (ok: bool, r: map<string, string>)
    ensures ok <==> CapacityOk(quantity, capacity)
    ensures ok && DistinctTrimmed(capacity) ==> r == TrimmedCapacity(capacity)
  {
    ghost var from;
    ok, r, from := CollectEntries(TrimSpace, (k: string, v: string) => EntryOk(quantity, k, v), capacity);
    if ok && DistinctTrimmed(capacity) {
      CollectedCapacity(capacity, r, from);
    }
  }

  lemma CollectedCapacity(capacity: map<string, string>, r: map<string, string>, from: map<string, string>)
    requires DistinctTrimmed(capacity) && from.Keys == r.Keys
    requires forall k :: k in capacity ==> TrimSpace(k) in r
    requires forall n :: n in r ==> from[n] in capacity && TrimSpace(from[n]) == n && r[n] == TrimSpace(capacity[from[n]])
    ensures r == TrimmedCapacity(capacity)
  {
    forall n | n in r ensures n in TrimmedCapacity(capacity) && r[n] == TrimmedCapacity(capacity)[n] {
      assert TrimSpace(from[n]) in (set k | k in capacity :: TrimSpace(k));
      assert SomeKey(capacity, n) == from[n];
    }
  }

  ghost predicate AllTrimmed(capacity: map<string, string>) {
    forall k :: k in capacity ==> Trimmed(k) && Trimmed(capacity[k])
  }

  lemma TrimmedCapacityIsTrimmed(capacity: map<string, string>)
    ensures AllTrimmed(TrimmedCapacity(capacity))
  {
  }

  lemma TrimmedCapacityFixed(capacity: map<string, string>)
    requires AllTrimmed(capacity)
    ensures TrimmedCapacity(capacity) == capacity
  {
    forall k | k in capacity ensures TrimSpace(k) == k && TrimSpace(capacity[k]) == capacity[k] {
      TrimmedIsFixed(k);
      TrimmedIsFixed(capacity[k]);
    }
    var names := set k | k in capacity :: TrimSpace(k);
    assert names == capacity.Keys;
    forall n | n in capacity ensures SomeKey(capacity, n) == n {
    }
  }

  // --------------------------------------------------------------------- packages

  /** normalizeRuntimePackageVirtualGPU. */
  function Virtual(quantity: Quantity, v: VirtualGPU, a: Allocation): Option<(VirtualGPU, Allocation)> {
    var n := VirtualGPU(Canonical(v.provider), TrimSpace(v.memory), v.cores);
    if n.provider == "" then (if n.memory != "" || n.cores != 0 then None else Some((n, a)))
    else if n.provider != HAMI || n.memory == "" then None
    else if quantity(n.memory).None? || quantity(n.memory).value <= 0 then None
    else if n.cores < 0 || n.cores > 100 then None
    else
      var class_ := TrimSpace(a.deviceClass);
      var a1 := a.(deviceClass := if class_ == "" then HAMI_DEVICE_CLASS else class_, count := if a.count == 0 then 1 else a.count);
      var withMemory := Merge(a1.capacity, MEMORY_KEY, n.memory);
      if withMemory.None? then None
      else if n.cores == 0 then Some((n, a1.(capacity := withMemory.value)))
      else
        var withCores := Merge(withMemory.value, CORES_KEY, FormatInt(n.cores));
        if withCores.None? then None else Some((n, a1.(capacity := withCores.value)))
  }

  function TrimAll(values: seq<string>): (r: seq<string>)
    ensures |r| == |values| && forall i :: 0 <= i < |r| ==> r[i] == TrimSpace(values[i])
  {
    seq(|values|, i requires 0 <= i < |values| => TrimSpace(values[i]))
  }

  /** normalizePackageDRAAllocation. */
  ghost function PackageAllocation(quantity: Quantity, a: Allocation): Option<Allocation> {
    var request := TrimSpace(a.claimRequest);
    var selectors := TrimAll(a.selectors);
    if TrimSpace(a.deviceClass) == "" || TrimSpace(a.claimName) != "" || a.count <= 0 then None
    else if !CapacityOk(quantity, a.capacity) || "" in selectors then None
    else
      Some(Allocation(TrimSpace(a.deviceClass), "", if request == "" then CLAIM_REQUEST else request, a.count,
                      TrimmedCapacity(a.capacity), selectors))
  }

  predicate QuantityText(quantity: Quantity, s: string) {
    s != "" && quantity(s).Some?
  }

  /** RuntimePackageSpec.Normalized. */
  ghost function NormalizePackage(quantity: Quantity, p: Package): Option<Package> {
    var id, specName, cpu, memory := Canonical(p.id), TrimSpace(p.specName), TrimSpace(p.cpu), TrimSpace(p.memory);
    if !IsDNS1123Label(id) || specName == "" || !QuantityText(quantity, cpu) || !QuantityText(quantity, memory) || p.gpu <= 0 then None
    else
      var v := Virtual(quantity, p.virtualGPU, p.allocation);
      if v.None? then None
      else
        var a := PackageAllocation(quantity, v.value.1);
        if a.None? then None else Some(Package(id, specName, cpu, memory, p.gpu, v.value.0, a.value))
  }

  // ------------------------------------------------------------------ fixed points

  lemma AllocationFixed(quantity: Quantity, a: Allocation)
    requires PackageAllocation(quantity, a).Some?
    ensures var n := PackageAllocation(quantity, a).value;
            && PackageAllocation(quantity, n) == Some(n)
            && AllTrimmed(n.capacity) && Trimmed(n.deviceClass) && n.deviceClass != "" && n.count > 0
  {
    var n := PackageAllocation(quantity, a).value;
    TrimmedCapacityIsTrimmed(a.capacity);
    TrimmedCapacityFixed(n.capacity);
    CapacityStaysOk(quantity, a.capacity);
    TrimmedIsFixed(n.deviceClass);
    TrimmedIsFixed("");
    TrimmedIsFixed(n.claimRequest);
    TrimAllFixed(n.selectors);
  }

  lemma TrimAllFixed(values: seq<string>)
    requires forall i :: 0 <= i < |values| ==> Trimmed(values[i])
    ensures TrimAll(values) == values
  {
    forall i | 0 <= i < |values| ensures TrimSpace(values[i]) == values[i] {
      TrimmedIsFixed(values[i]);
    }
  }

  lemma CapacityStaysOk(quantity: Quantity, capacity: map<string, string>)
    requires CapacityOk(quantity, capacity)
    ensures CapacityOk(quantity, TrimmedCapacity(capacity))
  {
    var r := TrimmedCapacity(capacity);
    forall n | n in r ensures EntryOk(quantity, n, r[n]) {
      var k := SomeKey(capacity, n);
      assert EntryOk(quantity, k, capacity[k]);
      TrimmedIsFixed(n);
      TrimmedIsFixed(r[n]);
    }
  }

  /** What the virtual GPU step leaves in the capacity survives the trimming, and is found
      there when the package is normalised again. */
  lemma {:induction false} MergedKeyStays(capacity: map<string, string>, key: string, value: string)
    requires Trimmed(key) && Trimmed(value)
    requires key in capacity && capacity[key] == value && forall k :: k in capacity && TrimSpace(k) == key ==> k == key
    ensures key in TrimmedCapacity(capacity) && TrimmedCapacity(capacity)[key] == value
  {
    TrimmedIsFixed(key);
    TrimmedIsFixed(value);
    assert TrimSpace(key) in (set k | k in capacity :: TrimSpace(k));
    assert SomeKey(capacity, key) == key;
  }

  lemma MergeResult(capacity: map<string, string>, key: string, value: string)
    requires Merge(capacity, key, value).Some? && Trimmed(key)
    ensures var m := Merge(capacity, key, value).value;
            && key in m && m[key] == value && (forall k :: k in m && TrimSpace(k) == key ==> k == key)
            && (forall k :: k in capacity && TrimSpace(k) != key ==> k in m && m[k] == capacity[k])
            && (forall k :: k in m && k != key ==> k in capacity)
  {
    TrimmedIsFixed(key);
  }

  lemma KeysTrimmed()
    ensures Trimmed(MEMORY_KEY) && Trimmed(CORES_KEY) && TrimSpace(MEMORY_KEY) == MEMORY_KEY && TrimSpace(CORES_KEY) == CORES_KEY
    ensures MEMORY_KEY != CORES_KEY
  {
    TrimmedIsFixed(MEMORY_KEY);
    TrimmedIsFixed(CORES_KEY);
  }

  /** The capacity a HAMi package ends up with. */
  predicate HasVirtualCapacity(v: VirtualGPU, capacity: map<string, string>) {
    v.provider == HAMI ==>
      && MEMORY_KEY in capacity && capacity[MEMORY_KEY] == v.memory
      && (v.cores != 0 ==> CORES_KEY in capacity && capacity[CORES_KEY] == FormatInt(v.cores))
  }

  lemma VirtualCapacity(quantity: Quantity, v: VirtualGPU, a: Allocation)
    requires Virtual(quantity, v, a).Some?
    ensures var (n, a') := Virtual(quantity, v, a).value; HasVirtualCapacity(n, TrimmedCapacity(a'.capacity))
  {
    var (n, a') := Virtual(quantity, v, a).value;
    if n.provider == HAMI {
      KeysTrimmed();
      MergeResult(a.capacity, MEMORY_KEY, n.memory);
      var m := Merge(a.capacity, MEMORY_KEY, n.memory).value;
      FormatIntTrimmed(n.cores);
      if n.cores == 0 {
        MergedKeyStays(m, MEMORY_KEY, n.memory);
      } else {
        MergeResult(m, CORES_KEY, FormatInt(n.cores));
        MergedKeyStays(a'.capacity, MEMORY_KEY, n.memory);
        MergedKeyStays(a'.capacity, CORES_KEY, FormatInt(n.cores));
      }
    }
  }

  lemma VirtualFixed(quantity: Quantity, n: VirtualGPU, a: Allocation)
    requires Canonical(n.provider) == n.provider && TrimSpace(n.memory) == n.memory && Trimmed(n.memory)
    requires n.provider == "" ==> n.memory == "" && n.cores == 0
    requires n.provider != "" ==>
               n.provider == HAMI && n.memory != "" && quantity(n.memory).Some? && quantity(n.memory).value > 0 && 0 <= n.cores <= 100
    requires HasVirtualCapacity(n, a.capacity) && AllTrimmed(a.capacity)
    requires a.deviceClass != "" && Trimmed(a.deviceClass) && a.count > 0
    ensures Virtual(quantity, n, a) == Some((n, a))
  {
    TrimmedIsFixed(a.deviceClass);
    if n.provider != "" {
      MergeFixed(a.capacity, MEMORY_KEY, n.memory);
      if n.cores != 0 {
        FormatIntTrimmed(n.cores);
        TrimmedIsFixed(FormatInt(n.cores));
        MergeFixed(a.capacity, CORES_KEY, FormatInt(n.cores));
      }
    }
  }

  /** Normalising a package twice is normalising it once. */
  lemma PackageIsFixed(quantity: Quantity, p: Package)
    requires NormalizePackage(quantity, p).Some?
    ensures var n := NormalizePackage(quantity, p).value; NormalizePackage(quantity, n) == Some(n)
  {
    var n := NormalizePackage(quantity, p).value;
    CanonicalIsFixed(n.id);
    TrimmedIsFixed(n.specName);
    TrimmedIsFixed(n.cpu);
    TrimmedIsFixed(n.memory);
    CanonicalIsFixed(n.virtualGPU.provider);
    TrimmedIsFixed(n.virtualGPU.memory);
    VirtualCapacity(quantity, p.virtualGPU, p.allocation);
    AllocationFixed(quantity, Virtual(quantity, p.virtualGPU, p.allocation).value.1);
    VirtualFixed(quantity, n.virtualGPU, n.allocation);
  }

  // --------------------------------------------------------------------- catalogue

  function IdOf(p: Package): string { p.id }

  predicate SameID(a: Package, b: Package) { a.id == b.id }

  /** RuntimePackageCatalog.Normalized. */
  ghost function NormalizeCatalog(quantity: Quantity, c: seq<Package>): Option<seq<Package>> {
    var checked := CheckAll(c, (p: Package) => NormalizePackage(quantity, p), SameID);
    if checked.None? then None else Some(SortOn(checked.value, IdOf))
  }

  lemma DistinctIDs(r: seq<Package>)
    requires NoClash(r, SameID)
    ensures KeysDistinct(r, IdOf)
  {
    forall i, j | 0 <= i < j < |r| ensures IdOf(r[i]) != IdOf(r[j]) {
      assert !SameID(r[i], r[j]);
    }
  }

  /** What a normalised catalogue looks like. */
  ghost predicate NormalCatalog(quantity: Quantity, c: seq<Package>) {
    && (forall p :: p in c ==> NormalizePackage(quantity, p) == Some(p))
    && NoClash(c, SameID)
    && SortedBy(c, IdOf)
  }

  lemma CatalogIsNormal(quantity: Quantity, c: seq<Package>)
    requires NormalizeCatalog(quantity, c).Some?
    ensures NormalCatalog(quantity, NormalizeCatalog(quantity, c).value)
  {
    var fix := (p: Package) => NormalizePackage(quantity, p);
    var checked := CheckAll(c, fix, SameID).value;
    CheckAllResult(c, fix, SameID);
    SortNoClash(checked, IdOf, SameID);
    MembersOf(checked, SortOn(checked, IdOf));
    forall p | p in checked ensures NormalizePackage(quantity, p) == Some(p) {
      var i :| 0 <= i < |checked| && checked[i] == p;
      assert fix(c[i]) == Some(checked[i]);
      PackageIsFixed(quantity, c[i]);
    }
  }

  lemma SortOfSorted(c: seq<Package>)
    requires SortedBy(c, IdOf) && NoClash(c, SameID)
    ensures SortOn(c, IdOf) == c
  {
    DistinctIDs(c);
    SortedUnique(c, SortOn(c, IdOf), IdOf);
  }

  /** Normalising a catalogue twice is normalising it once. */
  lemma CatalogIsFixed(quantity: Quantity, c: seq<Package>)
    requires NormalizeCatalog(quantity, c).Some?
    ensures var n := NormalizeCatalog(quantity, c).value; NormalizeCatalog(quantity, n) == Some(n)
  {
    var n := NormalizeCatalog(quantity, c).value;
    CatalogIsNormal(quantity, c);
    CheckAllFixed(n, (p: Package) => NormalizePackage(quantity, p), SameID);
    SortOfSorted(n);
  }

  /** The order of the entries in the configuration does not matter, neither for acceptance
      nor for the result, as long as no package has two capacity keys that trim to the same
      name (there the program takes whichever the map yields last). */
  lemma CatalogIgnoresOrder(quantity: Quantity, a: seq<Package>, b: seq<Package>)
    requires multiset(a) == multiset(b)
    requires forall p :: p in a ==> DistinctTrimmed(p.allocation.capacity)
    ensures NormalizeCatalog(quantity, a) == NormalizeCatalog(quantity, b)
  {
    var fix := (p: Package) => NormalizePackage(quantity, p);
    if CheckAll(a, fix, SameID).Some? {
      CheckAllAnyOrder(a, b, fix, SameID);
      SameSorted(quantity, a, b);
    } else if CheckAll(b, fix, SameID).Some? {
      CheckAllAnyOrder(b, a, fix, SameID);
    }
  }

  lemma SameSorted(quantity: Quantity, a: seq<Package>, b: seq<Package>)
    requires var fix := (p: Package) => NormalizePackage(quantity, p);
             var x, y := CheckAll(a, fix, SameID), CheckAll(b, fix, SameID);
             x.Some? && y.Some? && multiset(x.value) == multiset(y.value)
    ensures NormalizeCatalog(quantity, a) == NormalizeCatalog(quantity, b)
  {
    var fix := (p: Package) => NormalizePackage(quantity, p);
    var x, y := CheckAll(a, fix, SameID).value, CheckAll(b, fix, SameID).value;
    CheckAllResult(a, fix, SameID);
    SortNoClash(x, IdOf, SameID);
    DistinctIDs(SortOn(x, IdOf));
    SortedUnique(SortOn(x, IdOf), SortOn(y, IdOf), IdOf);
  }

  /** Lookup. */
  function Lookup(c: seq<Package>, id: string): Option<Package> {
    if c == [] then None
    else if c[0].id == Canonical(id) then Some(c[0])
    else Lookup(c[1..], id)
  }

  method LookupPackage(c: seq<Package>, id: string) returns (found: Option<Package>)
    ensures found == Lookup(c, id)
    ensures found.None? <==> forall p :: p in c ==> p.id != Canonical(id)
    ensures found.Some? ==> found.value in c && found.value.id == Canonical(id)
  {
    var normalized := Canonical(id);
    for i := 0 to |c|
      invariant Lookup(c, id) == Lookup(c[i..], id)
      invariant forall j :: 0 <= j < i ==> c[j].id != normalized
    {
      if c[i].id == normalized {
        return Some(c[i]);
      }
    }
    return None;
  }

  lemma {:induction false} LookupMember(c: seq<Package>, id: string)
    ensures Lookup(c, id).Some? ==> Lookup(c, id).value in c && Lookup(c, id).value.id == Canonical(id)
  {
    if c != [] {
      LookupMember(c[1..], id);
    }
  }
}
