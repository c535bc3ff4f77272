/**
 * Inversion of a changeset: the changeset that, applied after the original,
 * undoes it. Inserts become deletes of the same row, deletes become inserts,
 * and an update swaps the old and new values of every changed column while a
 * primary-key column keeps its identifying old value.
 */
module ChangesetInvert {
  import opened ChangesetFormat

  /**
   * Inverts column i of an update, given its old value o and new value n.
   * A column with a new value (a changed column) has its two values swapped;
   * a column without one (a key column, or one the update leaves alone) keeps
   * its old value and stays without a new value.
   */
  function InvertColumn(o: Value, n: Value): (Value, Value)
  {
    if n.IsDefined() then (n, o) else (o, Undefined)
  }

  /**
   * A column as an update records it (a new value only where the old one is
   * recorded too) keeps that shape when inverted, and inverting it again gives
   * the column back.
   */
  lemma InvertColumnInvolutive(o: Value, n: Value)
    requires n.IsDefined() ==> o.IsDefined()
    ensures var r := InvertColumn(o, n);
      && (r.1.IsDefined() <==> n.IsDefined())
      && (r.1.IsDefined() ==> r.0.IsDefined())
      && InvertColumn(r.0, r.1) == (o, n)
  {
  }

  /** Inverts one entry; the table name is carried over unchanged. */
  function InvertEntry(e: Entry): (r: Entry)
    requires e.ColumnsAligned()
    ensures r.table == e.table && r.ColumnsAligned()
    // an insert becomes a delete of the same row, a delete an insert of it
    ensures e.op == Insert ==> r.op == Delete && r.oldValues == e.newValues && r.newValues == []
    ensures e.op == Delete ==> r.op == Insert && r.newValues == e.oldValues && r.oldValues == []
    // an update stays an update over the same columns
    ensures e.op == Update ==> r.op == Update && |r.oldValues| == |r.newValues| == |e.oldValues|
    ensures e.WellFormed() ==> r.WellFormed()
  {
    match e.op
    case Insert => Entry(Delete, e.table, e.newValues, [])
    case Delete => Entry(Insert, e.table, [], e.oldValues)
    case Update =>
      var o, n := e.oldValues, e.newValues;
      Entry(Update, e.table,
            seq(|o|, i requires 0 <= i < |o| => InvertColumn(o[i], n[i]).0),
            seq(|n|, i requires 0 <= i < |n| => InvertColumn(o[i], n[i]).1))
  }

  /** The entries of an inverted update, column by column. */
  lemma InvertedUpdateColumns(e: Entry, i: int)
    requires e.op == Update && e.WellFormed() && 0 <= i < |e.oldValues|
    // a key column: its defined old value stays old, its new slot stays undefined
    ensures e.oldValues[i].IsDefined() && !e.newValues[i].IsDefined() ==>
      InvertEntry(e).oldValues[i] == e.oldValues[i] && InvertEntry(e).newValues[i] == Undefined
    // a column the update does not touch stays undefined on both sides
    ensures !e.oldValues[i].IsDefined() ==>
      InvertEntry(e).oldValues[i] == Undefined && InvertEntry(e).newValues[i] == Undefined
    // a changed column has its old and new values swapped
    ensures e.newValues[i].IsDefined() ==>
      InvertEntry(e).oldValues[i] == e.newValues[i] && InvertEntry(e).newValues[i] == e.oldValues[i]
  {
  }

  /** Inverting a well-formed entry twice gives the entry back. */
  lemma InvertEntryInvolutive(e: Entry)
    requires e.WellFormed()
    ensures InvertEntry(InvertEntry(e)) == e
  {
  }

  /**
   * Inverts every entry of a changeset, in order: the result has one entry for
   * each entry of the input, at the same position.
   */
  function InvertAll(c: Changeset): (r: Changeset)
    requires AllAligned(c)
    ensures |r| == |c| && AllAligned(r)
    ensures forall i :: 0 <= i < |c| ==> r[i] == InvertEntry(c[i])
    ensures AllWellFormed(c) ==> AllWellFormed(r)
  {
    if c == [] then [] else [InvertEntry(c[0])] + InvertAll(c[1..])
  }

  /** Inverting a well-formed changeset twice gives exactly the original changeset. */
  lemma {:induction false} InvertAllInvolutive(c: Changeset)
    requires AllWellFormed(c)
    ensures AllAligned(c) && InvertAll(InvertAll(c)) == c
  {
    assert AllAligned(c) by {
      forall i | 0 <= i < |c| ensures c[i].ColumnsAligned() { assert c[i].WellFormed(); }
    }
    var inv := InvertAll(c);
    var back := InvertAll(inv);
    forall i | 0 <= i < |c| ensures back[i] == c[i] {
      InvertEntryInvolutive(c[i]);
    }
  }

  /**
   * Streams the entries of a changeset through the inverter: each entry the
   * reader yields is inverted and appended to what the writer has written.
   */
  method InvertChangeset(changeset: Changeset) returns (inverted: Changeset)
    requires AllAligned(changeset)
    ensures inverted == InvertAll(changeset)
  {
    inverted := [];
    for n := 0 to |changeset|
      invariant |inverted| == n
      invariant forall k :: 0 <= k < n ==> inverted[k] == InvertEntry(changeset[k])
    {
      inverted := inverted + [InvertEntry(changeset[n])];
    }
  }

  /**
   * Inverts a changeset, inverts the result again, and hands back the first
   * inversion; the second one is exactly the original changeset.
   */
  method CheckDoubleInvertEqual(changeset: Changeset) returns (inv: Changeset)
    requires AllWellFormed(changeset)
    ensures AllAligned(changeset) && AllAligned(inv)
    ensures inv == InvertAll(changeset)
    ensures InvertAll(inv) == changeset
  {
    InvertAllInvolutive(changeset);
    inv := InvertChangeset(changeset);
    var invInv := InvertChangeset(inv);
    assert invInv == changeset;
  }
}
