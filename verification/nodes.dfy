/**
 * What the converter sees of a Fast5 file once the HDF5 reader is taken
 * away: the nodes a walk visits, in visiting order, each with its absolute
 * name, its attributes in their stored order, and, for a dataset, its columns.
 */
module Nodes {

  newtype byte = x: int | 0 <= x < 256

  /**
   * An attribute value: the dtype string numpy reports for it (`get_type(value).str`,
   * e.g. "<i8", "|S5", "<U3", "<f4") and the `repr` of the value that
   * `convert_type` makes of it (bytes decoded to text). Two values are equal
   * when both agree.
   */
  datatype Value = Value(dtype: string, rendering: string)

  /** One row of a column as `tolist()` gives it: a bytes object or any other value. */
  datatype Cell = BytesCell(bytes: seq<byte>) | OtherCell(value: Value)

  /**
   * A column of a dataset: its field name ("noname" for a dataset without
   * fields), the type text discovery reads for it (`str(dtype)` of the field,
   * or `dtype.str` for a plain dataset), and its rows.
   */
  datatype Column = Column(name: string, typeText: string, cells: seq<Cell>)

  datatype NodeKind = Group | Dataset(columns: seq<Column>)

  datatype Node = Node(path: string, kind: NodeKind, attrs: seq<(string, Value)>)
}
