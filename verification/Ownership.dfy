/** Which variable owns which cell of the free store, as values. */
module Ownership {
  import opened Basics
  import opened Memory

  ghost predicate HasOwner(owners: seq<set<nat>>, p: nat) {
    exists i :: 0 <= i < |owners| && p in owners[i]
  }

  /** Every cell is owned by exactly one of the owners, and they own nothing else. */
  ghost predicate Partitioned<T>(cells: map<nat, T>, owners: seq<set<nat>>) {
    && (forall i, j | 0 <= i < |owners| && 0 <= j < |owners| && i != j :: owners[i] !! owners[j])
    && (forall p | p in cells :: HasOwner(owners, p))
    && (forall i | 0 <= i < |owners| :: owners[i] <= cells.Keys && |owners[i]| <= 1)
  }

  lemma Apart<T>(cells: map<nat, T>, owners: seq<set<nat>>, i: nat)
    requires Partitioned(cells, owners) && i < |owners|
    ensures forall j | 0 <= j < |owners| && j != i :: owners[j] !! owners[i] && owners[j] <= cells.Keys
  {}

  lemma PartitionKept<T>(cells: map<nat, T>, owners: seq<set<nat>>, i: nat, cells': map<nat, T>, owned: set<nat>)
    requires Partitioned(cells, owners) && i < |owners| && OnlyOwn(cells, owners[i], cells', owned) && |owned| <= 1
    ensures Partitioned(cells', owners[i := owned])
  {
    hide HasOwner;
    var r := owners[i := owned];
    forall p | p in cells' ensures HasOwner(r, p) {
      OwnerKept(owners, i, owned, p);
    }
    forall j | 0 <= j < |r| ensures r[j] <= cells'.Keys && (j != i ==> r[j] !! owned) {
      if j != i {
        assert owners[j] !! owners[i] && owners[j] <= cells.Keys;
      }
    }
  }

  lemma OwnerKept(owners: seq<set<nat>>, i: nat, owned: set<nat>, p: nat)
    requires i < |owners| && (p in owned || (p !in owners[i] && HasOwner(owners, p)))
    ensures HasOwner(owners[i := owned], p)
  {
    var r := owners[i := owned];
    if p in owned {
      assert p in r[i];
    } else {
      var j :| 0 <= j < |owners| && p in owners[j];
      assert p in r[j];
    }
  }

  lemma Freed<T>(cells: map<nat, T>, owned: set<nat>)
    ensures OnlyOwn(cells, owned, cells - owned, {})
  {}

  lemma PartitionMoved<T>(cells: map<nat, T>, owners: seq<set<nat>>, to: nat, from: nat)
    requires Partitioned(cells, owners) && to < |owners| && from < |owners| && to != from && owners[to] == {}
    ensures Partitioned(cells, owners[to := owners[from]][from := {}])
  {
    hide HasOwner;
    var r := owners[to := owners[from]][from := {}];
    forall p | p in cells ensures HasOwner(r, p) {
      OwnerMoved(owners, to, from, p);
    }
  }

  lemma OwnerMoved(owners: seq<set<nat>>, to: nat, from: nat, p: nat)
    requires to < |owners| && from < |owners| && to != from && owners[to] == {} && HasOwner(owners, p)
    ensures HasOwner(owners[to := owners[from]][from := {}], p)
  {
    var r := owners[to := owners[from]][from := {}];
    var j :| 0 <= j < |owners| && p in owners[j];
    assert p in r[if j == from then to else j];
  }

  lemma PartitionSwapped<T>(cells: map<nat, T>, owners: seq<set<nat>>, a: nat, b: nat)
    requires Partitioned(cells, owners) && a < |owners| && b < |owners| && a != b
    ensures Partitioned(cells, owners[a := owners[b]][b := owners[a]])
  {
    hide HasOwner;
    var r := owners[a := owners[b]][b := owners[a]];
    forall p | p in cells ensures HasOwner(r, p) {
      OwnerSwapped(owners, a, b, p);
    }
  }

  lemma OwnerSwapped(owners: seq<set<nat>>, a: nat, b: nat, p: nat)
    requires a < |owners| && b < |owners| && a != b && HasOwner(owners, p)
    ensures HasOwner(owners[a := owners[b]][b := owners[a]], p)
  {
    var r := owners[a := owners[b]][b := owners[a]];
    var j :| 0 <= j < |owners| && p in owners[j];
    assert p in r[if j == a then b else if j == b then a else j];
  }

  lemma {:induction false} FewerCellsThanOwners(keys: set<nat>, owners: seq<set<nat>>)
    requires forall p | p in keys :: HasOwner(owners, p)
    requires forall i | 0 <= i < |owners| :: |owners[i]| <= 1
    ensures |keys| <= |owners|
  {
    if owners == [] {
      assert keys == {};
    } else {
      var n := |owners| - 1;
      var rest := keys - owners[n];
      forall p | p in rest ensures HasOwner(owners[..n], p) {
        var i :| 0 <= i < |owners| && p in owners[i];
        assert p in owners[..n][i];
      }
      FewerCellsThanOwners(rest, owners[..n]);
      assert keys <= rest + owners[n];
      SubsetSize(keys, rest + owners[n]);
    }
  }

  lemma {:induction false} SubsetSize(a: set<nat>, b: set<nat>)
    requires a <= b
    ensures |a| <= |b|
  {
    if a != {} {
      var x :| x in a;
      SubsetSize(a - {x}, b - {x});
    }
  }

  lemma {:induction false} FreeAddress(keys: set<nat>, n: nat)
    requires |keys| < n
    ensures exists p :: 0 < p <= n && p !in keys
  {
    if n in keys {
      FreeAddress(keys - {n}, n - 1);
      var p :| 0 < p <= n - 1 && p !in keys - {n};
      assert p !in keys;
    }
  }

  /** With fewer than 2^64 - 1 owners some address is always free. */
  lemma RoomForAll<T>(heap: Heap<T>, owners: seq<set<nat>>)
    requires Partitioned(heap.cells, owners) && |owners| < TWO_64 - 1
    ensures heap.HasRoom()
  {
    FewerCellsThanOwners(heap.cells.Keys, owners);
    FreeAddress(heap.cells.Keys, TWO_64 - 1);
    var p :| 0 < p <= TWO_64 - 1 && p !in heap.cells.Keys;
    assert p !in heap.cells;
  }
}
