/**
 * The changeset utility scenarios, stated over every entry of the shape the
 * scenarios use: a four-column table "simple" whose column 1 (a geometry) is
 * not looked at, so its values are left free.
 */
module ChangesetUtilsTests {
  import opened ChangesetFormat
  import opened ChangesetInvert
  import opened Hex

  /** Inverting a one-row insert gives one delete of that row, and inverting again gives the insert back. */
  lemma InvertInsertScenario(geom: Value)
    ensures var ins := Entry(Insert, "simple", [], [Int(4), geom, Text("my new point A"), Int(1)]);
      && AllAligned([ins])
      && var inv := InvertAll([ins]);
      && |inv| == 1
      && inv[0].op == Delete && inv[0].table == "simple"
      && |inv[0].oldValues| == 4
      && inv[0].oldValues[0] == Int(4)
      && inv[0].oldValues[2] == Text("my new point A")
      && inv[0].oldValues[3] == Int(1)
      && InvertAll(inv) == [ins]
  {
  }

  /** Inverting a one-row delete gives one insert of that row, and inverting again gives the delete back. */
  lemma InvertDeleteScenario(geom: Value)
    ensures var del := Entry(Delete, "simple", [Int(2), geom, Text("feature2"), Int(2)], []);
      && AllAligned([del])
      && var inv := InvertAll([del]);
      && |inv| == 1
      && inv[0].op == Insert && inv[0].table == "simple"
      && |inv[0].newValues| == 4
      && inv[0].newValues[0] == Int(2)
      && inv[0].newValues[2] == Text("feature2")
      && inv[0].newValues[3] == Int(2)
      && InvertAll(inv) == [del]
  {
  }

  /**
   * Inverting a one-row update of column 3 from 2 to 9999, keyed by column 0,
   * gives one update back from 9999 to 2 that keeps the key in its old values;
   * inverting again gives the original update.
   */
  lemma InvertUpdateScenario(geomOld: Value, geomNew: Value)
    requires geomNew.IsDefined() ==> geomOld.IsDefined()
    ensures var upd := Entry(Update, "simple", [Int(2), geomOld, Undefined, Int(2)],
                                               [Undefined, geomNew, Undefined, Int(9999)]);
      && AllAligned([upd])
      && var inv := InvertAll([upd]);
      && |inv| == 1
      && inv[0].op == Update && inv[0].table == "simple"
      && |inv[0].oldValues| == 4 && |inv[0].newValues| == 4
      && inv[0].oldValues[0] == Int(2)
      && inv[0].oldValues[2] == Undefined
      && inv[0].oldValues[3] == Int(9999)
      && inv[0].newValues[0] == Undefined
      && inv[0].newValues[2] == Undefined
      && inv[0].newValues[3] == Int(2)
      && InvertAll(inv) == [upd]
  {
    var upd := Entry(Update, "simple", [Int(2), geomOld, Undefined, Int(2)],
                                       [Undefined, geomNew, Undefined, Int(9999)]);
    assert upd.WellFormed();
    InvertAllInvolutive([upd]);
  }

  /** The bytes "A\xff" encode as "41FF", and both "41FF" and "41ff" decode to them. */
  lemma HexConversionScenario()
    ensures Bin2Hex([0x41, 0xFF]) == "41FF"
    ensures Hex2Bin("41FF") == Some([0x41, 0xFF])
    ensures Hex2Bin("41ff") == Some([0x41, 0xFF])
  {
    Hex2BinOfBin2Hex([0x41, 0xFF]);
    Hex2BinCaseInsensitive("41FF");
    assert LowerString("41FF") == "41ff";
  }
}
