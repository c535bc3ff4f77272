/**
 * Row model of a geodiff changeset, as the changeset reader hands it out:
 * a sequence of entries, each an insert, update or delete of one row of a
 * named table, carrying the row's column values before ("old") and after
 * ("new") the change. The layout follows the changeset format of SQLite's
 * session extension, where a column an update does not touch is recorded as
 * an undefined value.
 */
module ChangesetFormat {

  /** An unsigned 8-bit byte, the unit of blobs and of the hex codec. */
  newtype byte = x: int | 0 <= x < 256

  /** One column value of a changeset entry; Undefined marks an absent slot. */
  datatype Value =
    | Undefined
    | Null
    | Int(i: int)
    | Double(d: real)
    | Text(s: string)
    | Blob(bytes: seq<byte>)
  {
    predicate IsDefined() { !Undefined? }
  }

  /** The operation of one changeset entry. */
  datatype Op = Insert | Update | Delete

  /** One entry: the operation, the name of its table, and its old and new column values. */
  datatype Entry = Entry(op: Op, table: string, oldValues: seq<Value>, newValues: seq<Value>)
  {
    /** An update carries the same number of old and new columns, so column i can be read on both sides. */
    predicate ColumnsAligned() {
      op == Update ==> |oldValues| == |newValues|
    }

    /**
     * The shape the changeset format gives every entry: an insert carries only
     * new values, a delete only old values, and an update carries one old and
     * one new slot per column, where a column with a new value also has its old
     * value recorded (an unchanged column has an undefined new value; its old
     * slot is defined only for a primary-key column).
     */
    predicate WellFormed() {
      match op
      case Insert => oldValues == []
      case Delete => newValues == []
      case Update =>
        && |oldValues| == |newValues|
        && forall i :: 0 <= i < |newValues| && newValues[i].IsDefined() ==> oldValues[i].IsDefined()
    }
  }

  /** A changeset is the ordered sequence of its entries. */
  type Changeset = seq<Entry>

  predicate AllAligned(c: Changeset) {
    forall i :: 0 <= i < |c| ==> c[i].ColumnsAligned()
  }

  predicate AllWellFormed(c: Changeset) {
    forall i :: 0 <= i < |c| ==> c[i].WellFormed()
  }
}
