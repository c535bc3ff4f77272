# geodiff changeset inversion and hex codec in Dafny

This project models two utilities of geodiff's changeset engine.

- **Changeset inversion** (`invertChangeset`). It reads a changeset entry by entry and writes the inverse of each entry. A changeset is a sequence of entries. Each entry is an insert, update or delete on a named table, with old and new column values. A value may be `Undefined`, as in the changeset format of SQLite's session extension.
  - An insert becomes a delete of the same row.
  - A delete becomes an insert.
  - An update swaps the old and new values of each changed column. A primary-key column keeps its defined old value and has an undefined new value. A column the update does not touch stays undefined on both sides.
- **Hex conversion** (`bin2hex`, `hex2bin`). The encoder writes two uppercase hexadecimal digits per byte. The decoder reads either case.

Files:

- `changeset.dfy` (module `ChangesetFormat`): values, operations, entries and the well-formedness predicate.
- `invert.dfy` (module `ChangesetInvert`): per-entry inversion as functions. The streaming loop is a method. The involution lemmas are here too.
- `hex.dfy` (module `Hex`): the codec and its round-trip and case laws.
- `tests.dfy` (module `ChangesetUtilsTests`): the insert, delete, update and hex scenarios, stated as lemmas.

The implementation files of these utilities (`changesetutils`, `changesetreader`, `changesetwriter`) are not part of this model. The behaviour modelled is what the assertions of the changeset utility tests require of them. The model works on decoded entries, not on the binary layout. The byte-for-byte equality of a doubly inverted changeset file is modelled as equality of entry sequences.

## Model

| member | source | states |
|---|---|---|
| `ChangesetInvert.InvertColumnInvolutive` | geodiff/tests/test_changeset_utils.cpp:92-100 | inverting an update column keeps whether it is changed and keeps a new value only where an old one is recorded; inverting it twice gives the column back |
| `ChangesetInvert.InvertEntry` | geodiff/tests/test_changeset_utils.cpp:48-100 | every insert inverts to a delete on the same table whose old values are the inserted row, every delete to an insert whose new values are the deleted row, and every update to an update with the same column count on both sides; the inverse is well-formed whenever the input is |
| `ChangesetInvert.InvertedUpdateColumns` | geodiff/tests/test_changeset_utils.cpp:90-100 | in an inverted update a key column keeps its old value with an undefined new slot, an untouched column is undefined on both sides, a changed column has its values swapped |
| `ChangesetInvert.InvertEntryInvolutive` | geodiff/tests/test_changeset_utils.cpp:30-33 | inverting a well-formed entry twice gives the same entry |
| `ChangesetInvert.InvertAll` | geodiff/tests/test_changeset_utils.cpp:14-22 | inversion is entry for entry: the output has as many entries as the input, the i-th inverting the i-th, and it stays well-formed |
| `ChangesetInvert.InvertAllInvolutive` | geodiff/tests/test_changeset_utils.cpp:24-34 | inverting a well-formed changeset twice yields exactly the original changeset |
| `ChangesetInvert.InvertChangeset` | geodiff/tests/test_changeset_utils.cpp:14-22 | the streaming loop writes exactly the entry-for-entry inverse of what it reads |
| `ChangesetInvert.CheckDoubleInvertEqual` | geodiff/tests/test_changeset_utils.cpp:24-35 | returns the inverse of the changeset, and inverting that inverse gives the original changeset |
| `ChangesetUtilsTests.InvertInsertScenario` | geodiff/tests/test_changeset_utils.cpp:37-56 | the one-row insert (4, geometry, "my new point A", 1) into "simple" inverts to exactly one delete with those four old values, and back |
| `ChangesetUtilsTests.InvertDeleteScenario` | geodiff/tests/test_changeset_utils.cpp:58-77 | the one-row delete (2, geometry, "feature2", 2) from "simple" inverts to exactly one insert with those four new values, and back |
| `ChangesetUtilsTests.InvertUpdateScenario` | geodiff/tests/test_changeset_utils.cpp:79-103 | the update of column 3 from 2 to 9999 keyed by 2 inverts to exactly one update with old (2, -, undefined, 9999) and new (undefined, -, undefined, 2), and back |
| `Hex.DigitValue` | geodiff/tests/test_changeset_utils.cpp:148-149 | a character has a value exactly when it is a hexadecimal digit of either case, and the value is below 16 |
| `Hex.HexDigit` | geodiff/tests/test_changeset_utils.cpp:147 | a nibble is written as an uppercase digit that decodes back to the nibble |
| `Hex.Bin2Hex` | geodiff/tests/test_changeset_utils.cpp:147 | the encoding is twice as long as the input and every character is an uppercase hexadecimal digit |
| `Hex.Hex2Bin` | geodiff/tests/test_changeset_utils.cpp:148-149 | text decodes exactly when it has even length and only hexadecimal digits, into half as many bytes |
| `Hex.Hex2BinOfBin2Hex` | geodiff/tests/test_changeset_utils.cpp:147-148 | decoding the encoding of any bytes gives those bytes back |
| `Hex.Bin2HexOfHex2Bin` | geodiff/tests/test_changeset_utils.cpp:147-149 | encoding what a text decodes to gives that text back in uppercase |
| `Hex.DigitValueCaseInsensitive` | geodiff/tests/test_changeset_utils.cpp:149 | a digit and its other-case form have the same value, and a non-digit stays a non-digit |
| `Hex.Hex2BinCaseInsensitive` | geodiff/tests/test_changeset_utils.cpp:148-149 | upper, lower and mixed case forms of a text decode to the same result |
| `ChangesetUtilsTests.HexConversionScenario` | geodiff/tests/test_changeset_utils.cpp:145-150 | the bytes "A\xff" encode as "41FF", and "41FF" and "41ff" both decode to them |

## Left out

- The binary changeset layout, and the reader and writer that decode and encode it, including the per-table headers the writer emits. Their sources are not part of this model. The model works on the decoded entry sequence.
- The table record of an entry is reduced to its name. Its primary-key flags are not part of this model. In an update, a key column is recognised by a defined old value paired with an undefined new value.
- `ChangesetInvert.InvertEntry` requires an update's old and new values to have the same count. Every entry the reader yields has that shape. The model says nothing about misaligned updates.
- `Hex.Hex2Bin`: the tests in `geodiff/tests/test_changeset_utils.cpp` decode only well-formed text, so decoding of odd-length text or text with a non-hexadecimal character is not pinned down. The model rejects such text with `None`.
- JSON export (`changesetToJSON`, `changesetToJSONSummary`). The expected output lives in fixture files that are not part of this model.
- Diff, apply and rebase against database files. They need an SQL engine, and their implementation is not part of this model. The law that applying an inverted changeset restores the base database is therefore not stated.
- The Python binding (`pygeodiff/main.py`). Each method is a one-line delegation to the native library. Logging configuration is left out too.
- File handling of the tests (temporary directories, file comparison) and the test runner setup. These are I/O.
- Floating-point column values are modelled as `real`. The inverter only copies values, so floating-point semantics play no part.
