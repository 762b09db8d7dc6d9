/**
 A document of last-writer-wins maps: a growing set of stamped writes.

 Merging is set union, and a key reads as its write with the latest stamp. A
 device stamps a write later than everything its document already holds.
 */
module LoroMap {
  import opened Wrappers

  datatype Stamp = Stamp(lamport: nat, peer: nat)

  predicate Before(a: Stamp, b: Stamp) {
    a.lamport < b.lamport || (a.lamport == b.lamport && a.peer < b.peer)
  }

  /** What a map holds at a key: nothing, an explicit null, or a row. */
  datatype Cell<+V> = Absent | Null | Row(row: V)

  datatype Op<K, V> = Op(key: K, stamp: Stamp, cell: Cell<V>)

  type Doc<K(==), V(==)> = set<Op<K, V>>

  /** A stamp names one write: no two different writes to a key share it. */
  ghost predicate WellStamped<K(!new), V(!new)>(doc: Doc<K, V>) {
    forall a, b :: a in doc && b in doc && a.key == b.key && a.stamp == b.stamp ==> a == b
  }

  ghost predicate StampedBelow<K(!new), V(!new)>(doc: Doc<K, V>, clock: nat) {
    forall op :: op in doc ==> op.stamp.lamport < clock
  }

  ghost predicate IsLatest<K(!new), V(!new)>(doc: Doc<K, V>, op: Op<K, V>) {
    op in doc && forall o :: o in doc && o.key == op.key && o != op ==> Before(o.stamp, op.stamp)
  }

  lemma {:induction false} LatestExists<K(!new), V(!new)>(doc: Doc<K, V>, some: Op<K, V>)
    requires WellStamped(doc) && some in doc
    ensures exists op :: IsLatest(doc, op) && op.key == some.key
    decreases |doc|
  {
    if op :| op in doc && op.key == some.key && op != some {
      var rest := doc - {some};
      LatestExists(rest, op);
      var best :| IsLatest(rest, best) && best.key == some.key;
      assert best.stamp != some.stamp;
      if Before(best.stamp, some.stamp) {
        assert IsLatest(doc, some);
      } else {
        assert IsLatest(doc, best);
      }
    } else {
      assert IsLatest(doc, some);
    }
  }

  ghost function Read<K(!new), V(!new)>(doc: Doc<K, V>, key: K): Cell<V> {
    if exists op :: IsLatest(doc, op) && op.key == key
    then var op :| IsLatest(doc, op) && op.key == key; op.cell
    else Absent
  }

  lemma ReadIs<K(!new), V(!new)>(doc: Doc<K, V>, op: Op<K, V>)
    requires IsLatest(doc, op)
    ensures Read(doc, op.key) == op.cell
  {
  }

  /** A key that was never written reads as absent; any other as some write. */
  lemma ReadComesFromOp<K(!new), V(!new)>(doc: Doc<K, V>, key: K)
    requires WellStamped(doc)
    ensures Read(doc, key) != Absent ==> exists op :: IsLatest(doc, op) && op.key == key && op.cell == Read(doc, key)
    ensures (exists op :: op in doc && op.key == key) ==>
              exists op :: IsLatest(doc, op) && op.key == key && op.cell == Read(doc, key)
  {
    if op :| op in doc && op.key == key {
      LatestExists(doc, op);
    }
  }

  /** One commit: every key whose cell differs is written at `stamp`. */
  ghost function Write<K(!new), V(!new)>(doc: Doc<K, V>, cells: map<K, Cell<V>>, stamp: Stamp): Doc<K, V> {
    doc + set key | key in cells && Read(doc, key) != cells[key] :: Op(key, stamp, cells[key])
  }

  lemma WriteStaysWellStamped<K(!new), V(!new)>(doc: Doc<K, V>, cells: map<K, Cell<V>>, stamp: Stamp)
    requires WellStamped(doc) && StampedBelow(doc, stamp.lamport)
    ensures WellStamped(Write(doc, cells, stamp)) && StampedBelow(Write(doc, cells, stamp), stamp.lamport + 1)
    ensures doc <= Write(doc, cells, stamp)
  {
  }

  lemma ReadAfterWrite<K(!new), V(!new)>(doc: Doc<K, V>, cells: map<K, Cell<V>>, stamp: Stamp, key: K)
    requires WellStamped(doc) && StampedBelow(doc, stamp.lamport)
    ensures WellStamped(Write(doc, cells, stamp)) && StampedBelow(Write(doc, cells, stamp), stamp.lamport + 1)
    ensures doc <= Write(doc, cells, stamp)
    ensures Read(Write(doc, cells, stamp), key) == if key in cells then cells[key] else Read(doc, key)
  {
    WriteStaysWellStamped(doc, cells, stamp);
    if key in cells && Read(doc, key) != cells[key] {
      ReadIs(Write(doc, cells, stamp), Op(key, stamp, cells[key]));
    } else {
      ReadUnwritten(doc, cells, stamp, key);
    }
  }

  lemma ReadUnwritten<K(!new), V(!new)>(doc: Doc<K, V>, cells: map<K, Cell<V>>, stamp: Stamp, key: K)
    requires WellStamped(doc) && (key in cells ==> Read(doc, key) == cells[key])
    ensures Read(Write(doc, cells, stamp), key) == Read(doc, key)
  {
    var doc' := Write(doc, cells, stamp);
    assert forall o :: o in doc' && o.key == key ==> o in doc;
    if op :| op in doc && op.key == key {
      LatestExists(doc, op);
      var best :| IsLatest(doc, best) && best.key == key;
      ReadIs(doc, best);
      ReadIs(doc', best);
    }
  }

  /** A write that changes nothing leaves the document, and so its version, alone. */
  lemma WriteSameIsNoop<K(!new), V(!new)>(doc: Doc<K, V>, cells: map<K, Cell<V>>, stamp: Stamp)
    ensures Write(doc, cells, stamp) == doc
       <==> forall key :: key in cells ==> Read(doc, key) == cells[key] || Op(key, stamp, cells[key]) in doc
  {
    if Write(doc, cells, stamp) == doc {
      forall key | key in cells ensures Read(doc, key) == cells[key] || Op(key, stamp, cells[key]) in doc {
        if Read(doc, key) != cells[key] {
          assert Op(key, stamp, cells[key]) in Write(doc, cells, stamp);
        }
      }
    }
  }

  /** Every cell of a commit is in the document afterwards as a write of its own,
      so no later merge can drop it. */
  lemma WrittenCellsAreOps<K(!new), V(!new)>(doc: Doc<K, V>, cells: map<K, Cell<V>>, stamp: Stamp, key: K)
    requires WellStamped(doc) && key in cells && cells[key] != Absent
    ensures exists op :: op in Write(doc, cells, stamp) && op.key == key && op.cell == cells[key]
  {
    if Read(doc, key) != cells[key] {
      assert Op(key, stamp, cells[key]) in Write(doc, cells, stamp);
    } else {
      ReadComesFromOp(doc, key);
    }
  }

  // ------------------------------------------------ how the two are computed

  /** Looks through every write to a key for the one with the latest stamp. */
  method Get<K(!new, ==), V(!new, ==)>(doc: Doc<K, V>, key: K) returns (cell: Cell<V>)
    requires WellStamped(doc)
    ensures cell == Read(doc, key)
  {
    var rest := doc;
    var best: Option<Op<K, V>> := None;
    while rest != {}
      invariant rest <= doc
      invariant best.Some? ==> best.value in doc && best.value.key == key
      invariant forall op :: op in doc && op !in rest && op.key == key ==>
        best.Some? && (op == best.value || Before(op.stamp, best.value.stamp))
      decreases rest
    {
      var op :| op in rest;
      if op.key == key && (best.None? || Before(best.value.stamp, op.stamp)) {
        best := Some(op);
      }
      rest := rest - {op};
    }
    if best.Some? {
      assert IsLatest(doc, best.value);
      cell := best.value.cell;
    } else {
      assert forall op :: op in doc ==> op.key != key;
      cell := Absent;
    }
  }

  /** Sets every cell whose value differs, in one commit. */
  method Put<K(!new, ==), V(!new, ==)>(doc: Doc<K, V>, cells: map<K, Cell<V>>, stamp: Stamp) returns (written: Doc<K, V>)
    requires WellStamped(doc)
    ensures written == Write(doc, cells, stamp)
  {
    written := doc;
    var rest := cells.Keys;
    while rest != {}
      invariant rest <= cells.Keys
      invariant written
             == doc + set key | key in cells && key !in rest && Read(doc, key) != cells[key] :: Op(key, stamp, cells[key])
      decreases rest
    {
      var key :| key in rest;
      var current := Get(doc, key);
      if current != cells[key] {
        written := written + {Op(key, stamp, cells[key])};
      }
      rest := rest - {key};
    }
  }
}
