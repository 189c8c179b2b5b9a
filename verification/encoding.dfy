/**
 * The decisions the encoding pass takes for each read: which datasets it
 * skips, which tags a node sets and with what value, which groups of a file
 * are reads, where the read's name, bases and qualities come from, and the
 * fixed fields of an unaligned record.
 */
module Encoding {
  import opened Common
  import opened Tags
  import opened TypeCodes
  import opened ReadPath
  import opened Nodes
  import opened Schema
  import opened Header

  /** `process_dataset` of the encoding pass returns early for these paths. */
  predicate DatasetSkipped(path: string, skipSignal: bool)
    ensures DatasetSkipped(path, skipSignal) ==> IsFastqPath(path) || IsSignalPath(path) || IsEventsPath(path)
    ensures !skipSignal ==> (DatasetSkipped(path, skipSignal) <==> IsFastqPath(path))
  {
    (IsSignalPath(path) && skipSignal) || (IsEventsPath(path) && skipSignal) || IsFastqPath(path)
  }

  /**
   * FASTQ datasets are never stored as tags; raw signal and events only when
   * they are not skipped. Setting skipsignal only skips more, and a dataset it
   * skips besides the FASTQ one is of exactly one of the two signal kinds.
   */
  lemma SkipRule(path: string)
    ensures DatasetSkipped(path, false) ==> DatasetSkipped(path, true)
    ensures DatasetSkipped(path, true) && !DatasetSkipped(path, false) ==> IsSignalPath(path) != IsEventsPath(path)
    ensures DatasetSkipped(path, true) <==> IsFastqPath(path) || IsSignalPath(path) || IsEventsPath(path)
  {
  }

  /** A tag value as it is handed to the record. */
  datatype TagValue =
    | TextValue(text: string)                 // the read number and the file name
    | BytesValue(bytes: seq<byte>)            // a column of bytes rows, joined
    | ListValue(cells: seq<Cell>)             // any other column, as a list
    | AttrValue(value: Value, typ: TagType)   // an attribute, with the type get_tag_type chose

  /** `b''.join(rows)` over rows that are all bytes. */
  function JoinBytes(cells: seq<Cell>): (r: seq<byte>)
    requires forall i :: 0 <= i < |cells| ==> cells[i].BytesCell?
  {
    if cells == [] then [] else cells[0].bytes + JoinBytes(cells[1..])
  }

  function TotalLength(cells: seq<Cell>): nat
    requires forall i :: 0 <= i < |cells| ==> cells[i].BytesCell?
  {
    if cells == [] then 0 else |cells[0].bytes| + TotalLength(cells[1..])
  }

  /** Joining keeps every row, in order: row k sits right after the rows before it. */
  lemma {:induction false} JoinBytesKeepsRows(cells: seq<Cell>, k: nat)
    requires forall i :: 0 <= i < |cells| ==> cells[i].BytesCell?
    requires k < |cells|
    ensures |JoinBytes(cells)| == TotalLength(cells)
    ensures TotalLength(cells[..k]) + |cells[k].bytes| <= |JoinBytes(cells)|
    ensures JoinBytes(cells)[TotalLength(cells[..k])..TotalLength(cells[..k]) + |cells[k].bytes|] == cells[k].bytes
    decreases k
  {
    JoinLength(cells);
    if k == 0 {
      assert cells[..0] == [];
    } else {
      var rest := cells[1..];
      JoinBytesKeepsRows(rest, k - 1);
      assert cells[..k][1..] == rest[..k - 1];
      assert TotalLength(cells[..k]) == |cells[0].bytes| + TotalLength(rest[..k - 1]);
      var lo := TotalLength(rest[..k - 1]);
      var j := JoinBytes(cells);
      assert j == cells[0].bytes + JoinBytes(rest);
      assert j[|cells[0].bytes| + lo..|cells[0].bytes| + lo + |cells[k].bytes|] == JoinBytes(rest)[lo..lo + |cells[k].bytes|];
    }
  }

  lemma {:induction false} JoinLength(cells: seq<Cell>)
    requires forall i :: 0 <= i < |cells| ==> cells[i].BytesCell?
    ensures |JoinBytes(cells)| == TotalLength(cells)
  {
    if cells != [] {
      JoinLength(cells[1..]);
    }
  }

  predicate AllBytes(cells: seq<Cell>) {
    forall i :: 0 <= i < |cells| ==> cells[i].BytesCell?
  }

  /**
   * The value a column's tag gets: its rows joined when the first row is
   * bytes, the list of rows otherwise. A column without rows, or one that
   * starts with bytes and holds something else, stops the run.
   */
  function ColumnPayload(key: string, cells: seq<Cell>): (r: Result<TagValue>)
    ensures cells == [] ==> r == Err(EmptyColumn(key))
    ensures cells != [] && cells[0].BytesCell? ==> (r.Ok? <==> AllBytes(cells))
    ensures cells != [] && cells[0].BytesCell? && r.Err? ==> r.error == MixedColumn(key)
    ensures r.Ok? && r.value.BytesValue? ==> AllBytes(cells) && |r.value.bytes| == TotalLength(cells)
    ensures cells != [] && AllBytes(cells) ==> r == Ok(BytesValue(JoinBytes(cells)))
    ensures cells != [] && !cells[0].BytesCell? ==> r == Ok(ListValue(cells))
  {
    if cells == [] then Err(EmptyColumn(key))
    else if cells[0].BytesCell? then
      if AllBytes(cells) then JoinLength(cells); Ok(BytesValue(JoinBytes(cells))) else Err(MixedColumn(key))
    else Ok(ListValue(cells))
  }

  /** The key under which the column of a dataset at path is filed. */
  function ColumnKey(path: string, column: Column): string {
    path + "/" + column.name
  }

  /**
   * The tag one column sets: the key's tag with the column's payload. A
   * failed lookup stops the run before the column is read.
   */
  function ColumnTag(dir: Directory, path: string, column: Column): (r: Result<(string, TagValue)>)
    ensures GetTagNameCv(dir, ColumnKey(path, column)).Err? ==> r == Err(GetTagNameCv(dir, ColumnKey(path, column)).error)
    ensures GetTagNameCv(dir, ColumnKey(path, column)).Ok? ==>
      (r.Ok? <==> ColumnPayload(ColumnKey(path, column), column.cells).Ok?) &&
      (r.Ok? ==> r.value == (GetTagNameCv(dir, ColumnKey(path, column)).value.0, ColumnPayload(ColumnKey(path, column), column.cells).value)) &&
      (r.Err? ==> r.error == ColumnPayload(ColumnKey(path, column), column.cells).error)
  {
    var key := ColumnKey(path, column);
    match GetTagNameCv(dir, key)
    case Err(e) => Err(e)
    case Ok((tagName, _)) =>
      match ColumnPayload(key, column.cells)
      case Err(e) => Err(e)
      case Ok(payload) => Ok((tagName, payload))
  }

  /** sets holds the tag of every column, in column order. */
  predicate ColumnsTagged(dir: Directory, path: string, columns: seq<Column>, sets: seq<(string, TagValue)>) {
    |sets| == |columns| && forall k :: 0 <= k < |columns| ==> ColumnTag(dir, path, columns[k]) == Ok(sets[k])
  }

  /** Column k is the first whose tag fails, with error e. */
  predicate ColumnFailsFirst(dir: Directory, path: string, columns: seq<Column>, k: int, e: Error) {
    && 0 <= k < |columns|
    && ColumnTag(dir, path, columns[k]) == Err(e)
    && forall j :: 0 <= j < k ==> ColumnTag(dir, path, columns[j]).Ok?
  }

  /**
   * The tags one dataset sets: one per column, in column order, unless the
   * dataset is skipped. The first column that fails stops the run.
   */
  function DatasetTags(dir: Directory, path: string, columns: seq<Column>, skipSignal: bool): (r: Result<seq<(string, TagValue)>>)
    ensures DatasetSkipped(path, skipSignal) ==> r == Ok([])
    ensures !DatasetSkipped(path, skipSignal) && r.Ok? ==> ColumnsTagged(dir, path, columns, r.value)
    ensures !DatasetSkipped(path, skipSignal) && r.Err? ==> exists k :: ColumnFailsFirst(dir, path, columns, k, r.error)
  {
    if DatasetSkipped(path, skipSignal) then Ok([]) else ColumnTags(dir, path, columns)
  }

  /** The tags of the columns in order; the first column that fails stops the run. */
  function ColumnTags(dir: Directory, path: string, columns: seq<Column>): (r: Result<seq<(string, TagValue)>>)
    ensures r.Ok? ==> ColumnsTagged(dir, path, columns, r.value)
    ensures r.Err? ==> exists k :: ColumnFailsFirst(dir, path, columns, k, r.error)
    decreases |columns|
  {
    if columns == [] then Ok([])
    else
      match ColumnTag(dir, path, columns[0])
      case Err(e) =>
        assert ColumnFailsFirst(dir, path, columns, 0, e);
        Err(e)
      case Ok(first) =>
        match ColumnTags(dir, path, columns[1..])
        case Err(e) =>
          var k :| ColumnFailsFirst(dir, path, columns[1..], k, e);
          ColumnFailsLater(dir, path, columns, k, e);
          Err(e)
        case Ok(rest) =>
          ColumnsTaggedCons(dir, path, columns, first, rest);
          Ok([first] + rest)
  }

  lemma ColumnFailsLater(dir: Directory, path: string, columns: seq<Column>, k: int, e: Error)
    requires columns != [] && ColumnTag(dir, path, columns[0]).Ok?
    requires ColumnFailsFirst(dir, path, columns[1..], k, e)
    ensures ColumnFailsFirst(dir, path, columns, k + 1, e)
  {
    assert forall j :: 1 <= j <= k + 1 ==> columns[j] == columns[1..][j - 1];
  }

  lemma ColumnsTaggedCons(dir: Directory, path: string, columns: seq<Column>, first: (string, TagValue), rest: seq<(string, TagValue)>)
    requires columns != [] && ColumnTag(dir, path, columns[0]) == Ok(first)
    requires ColumnsTagged(dir, path, columns[1..], rest)
    ensures ColumnsTagged(dir, path, columns, [first] + rest)
  {
    assert forall k :: 1 <= k < |columns| ==> columns[k] == columns[1..][k - 1];
  }

  /**
   * The tag one attribute sets: none when the rendering of its value is the
   * key's default, otherwise the key's tag with the value and its tag type.
   * The type is only asked for when the tag is set.
   */
  function AttrTag(dir: Directory, key: string, v: Value): (r: Result<Option<(string, TagValue)>>)
    ensures GetTagNameCv(dir, key).Err? ==> r == Err(GetTagNameCv(dir, key).error)
    ensures GetTagNameCv(dir, key).Ok? ==>
      (r == Ok(None) <==> GetTagNameCv(dir, key).value.1 == Some(v.rendering))
    ensures GetTagNameCv(dir, key).Ok? && GetTagNameCv(dir, key).value.1 != Some(v.rendering) ==>
      (r.Ok? <==> GetTagType(HdfType(v.dtype)).Ok?) &&
      (r.Ok? ==> r.value == Some((GetTagNameCv(dir, key).value.0, AttrValue(v, GetTagType(HdfType(v.dtype)).value))))
  {
    match GetTagNameCv(dir, key)
    case Err(e) => Err(e)
    case Ok((tagName, cv)) =>
      if cv.Some? && v.rendering == cv.value then Ok(None)
      else
        match GetTagType(HdfType(v.dtype))
        case Err(e) => Err(e)
        case Ok(t) => Ok(Some((tagName, AttrValue(v, t))))
  }

  /** The key under which an attribute of the node at path is filed. */
  function AttrKey(path: string, attr: (string, Value)): string {
    path + "/" + attr.0
  }

  /** Attribute k is the first whose tag fails, with error e. */
  predicate AttrFailsFirst(dir: Directory, path: string, attrs: seq<(string, Value)>, k: int, e: Error) {
    && 0 <= k < |attrs|
    && AttrTag(dir, AttrKey(path, attrs[k]), attrs[k].1) == Err(e)
    && forall j :: 0 <= j < k ==> AttrTag(dir, AttrKey(path, attrs[j]), attrs[j].1).Ok?
  }

  /** No attribute fails, and sets holds exactly the tags the attributes emit. */
  predicate AttrsEmitted(dir: Directory, path: string, attrs: seq<(string, Value)>, sets: seq<(string, TagValue)>) {
    && |sets| <= |attrs|
    && (forall k :: 0 <= k < |attrs| ==> AttrTag(dir, AttrKey(path, attrs[k]), attrs[k].1).Ok?)
    && (forall k :: 0 <= k < |attrs| && AttrTag(dir, AttrKey(path, attrs[k]), attrs[k].1) != Ok(None) ==>
          AttrTag(dir, AttrKey(path, attrs[k]), attrs[k].1).value.value in sets)
    && (forall t :: t in sets ==> exists k :: 0 <= k < |attrs| && AttrTag(dir, AttrKey(path, attrs[k]), attrs[k].1) == Ok(Some(t)))
  }

  /** The tags a node's attributes set, in their stored order; the first attribute that fails stops the run. */
  function AttrsTags(dir: Directory, path: string, attrs: seq<(string, Value)>): (r: Result<seq<(string, TagValue)>>)
    ensures r.Ok? ==> AttrsEmitted(dir, path, attrs, r.value)
    ensures r.Err? ==> exists k :: AttrFailsFirst(dir, path, attrs, k, r.error)
    decreases |attrs|
  {
    if attrs == [] then Ok([])
    else
      match AttrTag(dir, AttrKey(path, attrs[0]), attrs[0].1)
      case Err(e) =>
        assert AttrFailsFirst(dir, path, attrs, 0, e);
        Err(e)
      case Ok(emitted) =>
        match AttrsTags(dir, path, attrs[1..])
        case Err(e) =>
          var k :| AttrFailsFirst(dir, path, attrs[1..], k, e);
          AttrFailsLater(dir, path, attrs, k, e);
          Err(e)
        case Ok(rest) =>
          AttrsEmittedCons(dir, path, attrs, emitted, rest);
          Ok((if emitted.Some? then [emitted.value] else []) + rest)
  }

  lemma AttrFailsLater(dir: Directory, path: string, attrs: seq<(string, Value)>, k: int, e: Error)
    requires attrs != [] && AttrTag(dir, AttrKey(path, attrs[0]), attrs[0].1).Ok?
    requires AttrFailsFirst(dir, path, attrs[1..], k, e)
    ensures AttrFailsFirst(dir, path, attrs, k + 1, e)
  {
    assert forall j :: 1 <= j <= k + 1 ==> attrs[j] == attrs[1..][j - 1];
  }

  lemma AttrsEmittedCons(dir: Directory, path: string, attrs: seq<(string, Value)>,
                         emitted: Option<(string, TagValue)>, rest: seq<(string, TagValue)>)
    requires attrs != [] && AttrTag(dir, AttrKey(path, attrs[0]), attrs[0].1) == Ok(emitted)
    requires AttrsEmitted(dir, path, attrs[1..], rest)
    ensures AttrsEmitted(dir, path, attrs, (if emitted.Some? then [emitted.value] else []) + rest)
  {
    AttrsOkCons(dir, path, attrs, emitted, rest);
    AttrsKeptCons(dir, path, attrs, emitted, rest);
    AttrsSourcesCons(dir, path, attrs, emitted, rest);
  }

  /** Every attribute of the longer run succeeds. */
  lemma AttrsOkCons(dir: Directory, path: string, attrs: seq<(string, Value)>,
                    emitted: Option<(string, TagValue)>, rest: seq<(string, TagValue)>)
    requires attrs != [] && AttrTag(dir, AttrKey(path, attrs[0]), attrs[0].1) == Ok(emitted)
    requires AttrsEmitted(dir, path, attrs[1..], rest)
    ensures forall k :: 0 <= k < |attrs| ==> AttrTag(dir, AttrKey(path, attrs[k]), attrs[k].1).Ok?
  {
    forall k | 1 <= k < |attrs| ensures AttrTag(dir, AttrKey(path, attrs[k]), attrs[k].1).Ok? {
      assert attrs[k] == attrs[1..][k - 1];
    }
  }

  /** Every tag an attribute of the longer run emits is in the longer run's tags. */
  lemma AttrsKeptCons(dir: Directory, path: string, attrs: seq<(string, Value)>,
                      emitted: Option<(string, TagValue)>, rest: seq<(string, TagValue)>)
    requires attrs != [] && AttrTag(dir, AttrKey(path, attrs[0]), attrs[0].1) == Ok(emitted)
    requires AttrsEmitted(dir, path, attrs[1..], rest)
    ensures forall k :: 0 <= k < |attrs| && AttrTag(dir, AttrKey(path, attrs[k]), attrs[k].1) != Ok(None) ==>
      AttrTag(dir, AttrKey(path, attrs[k]), attrs[k].1).value.value in (if emitted.Some? then [emitted.value] else []) + rest
  {
    forall k | 1 <= k < |attrs| && AttrTag(dir, AttrKey(path, attrs[k]), attrs[k].1) != Ok(None)
      ensures AttrTag(dir, AttrKey(path, attrs[k]), attrs[k].1).value.value in rest
    {
      assert attrs[k] == attrs[1..][k - 1];
    }
  }

  /** Every tag of the longer run comes from one of its attributes. */
  lemma AttrsSourcesCons(dir: Directory, path: string, attrs: seq<(string, Value)>,
                         emitted: Option<(string, TagValue)>, rest: seq<(string, TagValue)>)
    requires attrs != [] && AttrTag(dir, AttrKey(path, attrs[0]), attrs[0].1) == Ok(emitted)
    requires AttrsEmitted(dir, path, attrs[1..], rest)
    ensures forall t :: t in (if emitted.Some? then [emitted.value] else []) + rest ==>
      exists k :: 0 <= k < |attrs| && AttrTag(dir, AttrKey(path, attrs[k]), attrs[k].1) == Ok(Some(t))
  {
    var sets := (if emitted.Some? then [emitted.value] else []) + rest;
    forall t | t in sets
      ensures exists k :: 0 <= k < |attrs| && AttrTag(dir, AttrKey(path, attrs[k]), attrs[k].1) == Ok(Some(t))
    {
      if t in rest {
        var k :| 0 <= k < |attrs[1..]| && AttrTag(dir, AttrKey(path, attrs[1..][k]), attrs[1..][k].1) == Ok(Some(t));
        assert attrs[1..][k] == attrs[k + 1];
      } else {
        assert AttrTag(dir, AttrKey(path, attrs[0]), attrs[0].1) == Ok(Some(t));
      }
    }
  }

  /** The read-number tag of a node: set when `remove_read_number` gives back a non-empty identifier. */
  function ReadNumberTags(path: string): (r: seq<(string, TagValue)>)
    ensures |r| <= 1
    ensures r != [] <==> RemoveReadNumber(path).1.Some? && RemoveReadNumber(path).1.value != []
    ensures r != [] ==> r[0] == (READ_NUM_TAG, TextValue(RemoveReadNumber(path).1.value))
  {
    var readNum := RemoveReadNumber(path).1;
    if readNum.Some? && readNum.value != [] then [(READ_NUM_TAG, TextValue(readNum.value))] else []
  }

  /** The column tags of a node: those of its dataset, none for a group. */
  function NodeColumnTags(dir: Directory, node: Node, skipSignal: bool): (r: Result<seq<(string, TagValue)>>)
    ensures node.kind.Group? ==> r == Ok([])
    ensures node.kind.Dataset? ==> r == DatasetTags(dir, NodeKey(node), node.kind.columns, skipSignal)
  {
    if node.kind.Dataset? then DatasetTags(dir, NodeKey(node), node.kind.columns, skipSignal) else Ok([])
  }

  /**
   * `process_attrs` for one node: its read number first, then its columns,
   * then its attributes, all under the node's key. A failing column stops
   * the run before any attribute is looked at.
   */
  function NodeTags(dir: Directory, node: Node, skipSignal: bool): (r: Result<seq<(string, TagValue)>>)
    ensures NodeColumnTags(dir, node, skipSignal).Err? ==> r == Err(NodeColumnTags(dir, node, skipSignal).error)
    ensures NodeColumnTags(dir, node, skipSignal).Ok? && AttrsTags(dir, NodeKey(node), node.attrs).Err? ==>
      r == Err(AttrsTags(dir, NodeKey(node), node.attrs).error)
    ensures r.Ok? <==> NodeColumnTags(dir, node, skipSignal).Ok? && AttrsTags(dir, NodeKey(node), node.attrs).Ok?
    ensures r.Ok? ==>
      r.value == ReadNumberTags(node.path) + NodeColumnTags(dir, node, skipSignal).value + AttrsTags(dir, NodeKey(node), node.attrs).value
  {
    var name := NodeKey(node);
    match NodeColumnTags(dir, node, skipSignal)
    case Err(e) => Err(e)
    case Ok(cs) =>
      match AttrsTags(dir, name, node.attrs)
      case Err(e) => Err(e)
      case Ok(attrTags) => Ok(ReadNumberTags(node.path) + cs + attrTags)
  }

  /** Node k of a group is the first whose tags fail, with error e. */
  predicate NodeFailsFirst(dir: Directory, nodes: seq<Node>, skipSignal: bool, k: int, e: Error) {
    && 0 <= k < |nodes|
    && NodeTags(dir, nodes[k], skipSignal) == Err(e)
    && forall j :: 0 <= j < k ==> NodeTags(dir, nodes[j], skipSignal).Ok?
  }

  /** Two tag runs in a row: the first one's error, else the second one's, else both lists of tags. */
  function ThenTags(a: Result<seq<(string, TagValue)>>, b: Result<seq<(string, TagValue)>>): Result<seq<(string, TagValue)>> {
    if a.Err? then a else if b.Err? then b else Ok(a.value + b.value)
  }

  lemma ThenTagsAssoc(a: Result<seq<(string, TagValue)>>, b: Result<seq<(string, TagValue)>>, c: Result<seq<(string, TagValue)>>)
    ensures ThenTags(a, ThenTags(b, c)) == ThenTags(ThenTags(a, b), c)
  {
    if a.Ok? && b.Ok? && c.Ok? {
      assert a.value + (b.value + c.value) == (a.value + b.value) + c.value;
    }
  }

  /** The tags a read group sets, node by node in visiting order; the first node that fails stops the run. */
  function GroupTags(dir: Directory, nodes: seq<Node>, skipSignal: bool): Result<seq<(string, TagValue)>>
    decreases |nodes|
  {
    if nodes == [] then Ok([])
    else ThenTags(NodeTags(dir, nodes[0], skipSignal), GroupTags(dir, nodes[1..], skipSignal))
  }

  /**
   * GroupTags succeeds only when every node's tags do, and otherwise reports
   * the error of the first node that fails.
   */
  lemma {:induction false} GroupTagsFailsFirst(dir: Directory, nodes: seq<Node>, skipSignal: bool)
    ensures GroupTags(dir, nodes, skipSignal).Ok? ==> forall k :: 0 <= k < |nodes| ==> NodeTags(dir, nodes[k], skipSignal).Ok?
    ensures GroupTags(dir, nodes, skipSignal).Err? ==> exists k :: NodeFailsFirst(dir, nodes, skipSignal, k, GroupTags(dir, nodes, skipSignal).error)
    decreases |nodes|
  {
    if nodes != [] {
      GroupTagsFailsFirst(dir, nodes[1..], skipSignal);
      var rest := GroupTags(dir, nodes[1..], skipSignal);
      match NodeTags(dir, nodes[0], skipSignal)
      case Err(e) =>
        assert NodeFailsFirst(dir, nodes, skipSignal, 0, e);
      case Ok(_) =>
        if rest.Err? {
          var k :| NodeFailsFirst(dir, nodes[1..], skipSignal, k, rest.error);
          NodeFailsLater(dir, nodes, skipSignal, k, rest.error);
        } else {
          NodesTaggedLater(dir, nodes, skipSignal);
        }
    }
  }

  lemma NodeFailsLater(dir: Directory, nodes: seq<Node>, skipSignal: bool, k: int, e: Error)
    requires nodes != [] && NodeTags(dir, nodes[0], skipSignal).Ok? && NodeFailsFirst(dir, nodes[1..], skipSignal, k, e)
    ensures NodeFailsFirst(dir, nodes, skipSignal, k + 1, e)
  {
    assert forall j :: 1 <= j <= k + 1 ==> nodes[j] == nodes[1..][j - 1];
  }

  lemma NodesTaggedLater(dir: Directory, nodes: seq<Node>, skipSignal: bool)
    requires nodes != [] && NodeTags(dir, nodes[0], skipSignal).Ok?
    requires forall k :: 0 <= k < |nodes[1..]| ==> NodeTags(dir, nodes[1..][k], skipSignal).Ok?
    ensures forall k :: 0 <= k < |nodes| ==> NodeTags(dir, nodes[k], skipSignal).Ok?
  {
    assert forall k :: 1 <= k < |nodes| ==> nodes[k] == nodes[1..][k - 1];
  }

  /**
   * The tags of two walks in a row are the first walk's tags followed by the
   * second's; a failure in the first walk is the one reported.
   */
  lemma {:induction false} GroupTagsAppend(dir: Directory, n1: seq<Node>, n2: seq<Node>, skipSignal: bool)
    ensures GroupTags(dir, n1 + n2, skipSignal) == ThenTags(GroupTags(dir, n1, skipSignal), GroupTags(dir, n2, skipSignal))
    decreases |n1|
  {
    if n1 == [] {
      assert n1 + n2 == n2;
      var rest2 := GroupTags(dir, n2, skipSignal);
      if rest2.Ok? {
        assert [] + rest2.value == rest2.value;
      }
    } else {
      var both := n1 + n2;
      assert both[0] == n1[0] && both[1..] == n1[1..] + n2;
      var head, rest1, rest2 := NodeTags(dir, n1[0], skipSignal), GroupTags(dir, n1[1..], skipSignal), GroupTags(dir, n2, skipSignal);
      GroupTagsAppend(dir, n1[1..], n2, skipSignal);
      assert GroupTags(dir, both, skipSignal) == ThenTags(head, ThenTags(rest1, rest2));
      assert GroupTags(dir, n1, skipSignal) == ThenTags(head, rest1);
      ThenTagsAssoc(head, rest1, rest2);
    }
  }

  /**
   * `fastq_path` after a walk: the name of the last visited node that looks
   * like a FASTQ dataset; what it was before when the walk visits none.
   */
  function LastFastqPath(nodes: seq<Node>, fastqPath: Option<string>): (r: Option<string>)
    ensures forall k ::
      (0 <= k < |nodes| && IsFastqPath(nodes[k].path) && forall j :: k < j < |nodes| ==> !IsFastqPath(nodes[j].path)) ==>
      r == Some(nodes[k].path)
    ensures (forall k :: 0 <= k < |nodes| ==> !IsFastqPath(nodes[k].path)) ==> r == fastqPath
    decreases |nodes|
  {
    if nodes == [] then fastqPath
    else
      var next := if IsFastqPath(nodes[0].path) then Some(nodes[0].path) else fastqPath;
      assert forall j :: 1 <= j < |nodes| ==> nodes[j] == nodes[1..][j - 1];
      LastFastqPath(nodes[1..], next)
  }

  /**
   * Which groups of a file are reads: every top-level group when the first
   * one is named "read_…" (a file holding many reads), otherwise the file
   * itself. A file with no top-level node stops the run.
   */
  function ManyReads(children: seq<string>): (r: Result<bool>)
    ensures children == [] <==> r == Err(EmptyFile)
    ensures r.Ok? ==> (r.value <==> StartsWith(children[0], "read_"))
  {
    if children == [] then Err(EmptyFile) else Ok(StartsWith(children[0], "read_"))
  }

  /** The name, bases and qualities a record gets when no FASTQ is found. */
  const NO_FASTQ: seq<Option<string>> := [Some("nofastq"), None, None, None]

  function Lines(text: string): (r: seq<Option<string>>)
    ensures |r| == |SplitLines(text)| && forall k :: 0 <= k < |r| ==> r[k] == Some(SplitLines(text)[k])
  {
    seq(|SplitLines(text)|, i requires 0 <= i < |SplitLines(text)| => Some(SplitLines(text)[i]))
  }

  /** `read_fastq_from_file` on the text of the file: exactly four lines, or the run stops. */
  function ReadFastqFromFile(text: string): (r: Result<seq<Option<string>>>)
    ensures r.Ok? <==> |SplitLines(text)| == 4
    ensures r.Err? ==> r.error == InvalidFastq(|SplitLines(text)|)
    ensures r.Ok? ==> r.value == Lines(text)
  {
    if |SplitLines(text)| != 4 then Err(InvalidFastq(|SplitLines(text)|)) else Ok(Lines(text))
  }

  /**
   * `fastq_lines` of one read group: the default, replaced by the lines of the
   * embedded FASTQ dataset when the walk found one, replaced in turn by the
   * lines of the external FASTQ file when a FASTQ directory is given.
   * `contents` maps the file's dataset names to their text.
   */
  function FastqLines(fastqPath: Option<string>, contents: map<string, string>, external: Option<string>): (r: Result<seq<Option<string>>>)
    ensures fastqPath.Some? && fastqPath.value !in contents ==> r == Err(FastqNotDataset(fastqPath.value))
    ensures (fastqPath.Some? ==> fastqPath.value in contents) && external.Some? ==> r == ReadFastqFromFile(external.value)
    ensures external.None? && fastqPath.None? ==> r == Ok(NO_FASTQ)
    ensures external.None? && fastqPath.Some? && fastqPath.value in contents ==> r == Ok(Lines(contents[fastqPath.value]))
    ensures r.Err? ==> r.error.FastqNotDataset? || r.error.InvalidFastq?
  {
    var embedded :=
      if fastqPath.None? then Ok(NO_FASTQ)
      else if fastqPath.value in contents then Ok(Lines(contents[fastqPath.value]))
      else Err(FastqNotDataset(fastqPath.value));
    match embedded
    case Err(e) => Err(e)
    case Ok(lines) => if external.Some? then ReadFastqFromFile(external.value) else Ok(lines)
  }

  /** Name, bases and qualities from lines 0, 1 and 3; fewer than four lines stop the run. */
  function QueryFields(lines: seq<Option<string>>): (r: Result<(Option<string>, Option<string>, Option<string>)>)
    ensures r.Ok? <==> |lines| >= 4
    ensures r.Err? ==> r.error == MissingFastqLine(|lines|)
    ensures r.Ok? ==> r.value == (lines[0], lines[1], lines[3])
  {
    if |lines| < 4 then Err(MissingFastqLine(|lines|)) else Ok((lines[0], lines[1], lines[3]))
  }

  /** A well-formed external FASTQ record gives the read its name, bases and qualities, and an ill-formed one stops the run. */
  lemma {:induction false} ExternalFastqRecord(name: string, bases: string, plus: string, quals: string, fastqPath: Option<string>, contents: map<string, string>)
    requires NoLineBreak(name) && NoLineBreak(bases) && NoLineBreak(plus) && NoLineBreak(quals)
    requires fastqPath.Some? ==> fastqPath.value in contents
    ensures var text := JoinLines([name, bases, plus, quals]);
      FastqLines(fastqPath, contents, Some(text)).Ok? &&
      QueryFields(FastqLines(fastqPath, contents, Some(text)).value) == Ok((Some(name), Some(bases), Some(quals)))
    ensures var text := JoinLines([name, bases, plus, quals, name]);
      FastqLines(fastqPath, contents, Some(text)) == Err(InvalidFastq(5))
  {
    var lines := [name, bases, plus, quals];
    SplitJoinLines(lines);
    assert ReadFastqFromFile(JoinLines(lines)) == Ok(Lines(JoinLines(lines)));
    var lines5 := lines + [name];
    assert forall k :: 0 <= k < |lines5| ==> NoLineBreak(lines5[k]);
    SplitJoinLines(lines5);
    assert lines5 == [name, bases, plus, quals, name];
    assert |SplitLines(JoinLines(lines5))| == 5;
  }

  /** An embedded FASTQ dataset is not checked for its line count: five lines are taken, the fifth ignored. */
  lemma {:induction false} EmbeddedFastqUnchecked(path: string, name: string, bases: string, plus: string, quals: string, extra: string, contents: map<string, string>)
    requires NoLineBreak(name) && NoLineBreak(bases) && NoLineBreak(plus) && NoLineBreak(quals) && NoLineBreak(extra)
    requires path in contents && contents[path] == JoinLines([name, bases, plus, quals, extra])
    ensures FastqLines(Some(path), contents, None).Ok? &&
      QueryFields(FastqLines(Some(path), contents, None).value) == Ok((Some(name), Some(bases), Some(quals)))
  {
    SplitJoinLines([name, bases, plus, quals, extra]);
  }

  /** The SAM flag bit "segment unmapped", the only flag an output record carries. */
  const UNMAPPED_FLAG: int := 4

  /** The fields of one output record that the converter chooses. */
  datatype Record = Record(
    tags: map<string, TagValue>,
    name: Option<string>, sequence: Option<string>, qualities: Option<string>,
    flag: int, referenceId: int, referenceStart: int, mappingQuality: int,
    cigar: seq<(int, int)>, nextReferenceId: int, nextReferenceStart: int, templateLength: int)

  /** `set_tag` call after call: a later call under the same name replaces the earlier value. */
  function ApplyTags(tags: map<string, TagValue>, sets: seq<(string, TagValue)>): (r: map<string, TagValue>)
    ensures tags.Keys <= r.Keys
    ensures forall k :: 0 <= k < |sets| ==> sets[k].0 in r
    decreases |sets|
  {
    if sets == [] then tags
    else
      var r := ApplyTags(tags[sets[0].0 := sets[0].1], sets[1..]);
      assert sets[0].0 in r;
      assert forall k :: 1 <= k < |sets| ==> sets[k] == sets[1..][k - 1];
      r
  }

  /** The last call naming a tag decides its value. */
  lemma {:induction false} ApplyTagsLastWins(tags: map<string, TagValue>, sets: seq<(string, TagValue)>, k: nat)
    requires k < |sets| && forall j :: k < j < |sets| ==> sets[j].0 != sets[k].0
    ensures ApplyTags(tags, sets)[sets[k].0] == sets[k].1
    decreases |sets|
  {
    var tags1 := tags[sets[0].0 := sets[0].1];
    assert forall j :: 0 <= j < |sets[1..]| ==> sets[1..][j] == sets[j + 1];
    if k == 0 {
      ApplyTagsKeeps(tags1, sets[1..], sets[0].0);
    } else {
      ApplyTagsLastWins(tags1, sets[1..], k - 1);
    }
  }

  /** A tag no call names keeps its value. */
  lemma {:induction false} ApplyTagsKeeps(tags: map<string, TagValue>, sets: seq<(string, TagValue)>, t: string)
    requires t in tags && forall k :: 0 <= k < |sets| ==> sets[k].0 != t
    ensures t in ApplyTags(tags, sets) && ApplyTags(tags, sets)[t] == tags[t]
    decreases |sets|
  {
    if sets != [] {
      assert forall k :: 0 <= k < |sets[1..]| ==> sets[1..][k] == sets[k + 1];
      ApplyTagsKeeps(tags[sets[0].0 := sets[0].1], sets[1..], t);
    }
  }

  /** The record of an unaligned read with these tags and FASTQ fields. */
  function Unaligned(tags: map<string, TagValue>, name: Option<string>, sequence: Option<string>, qualities: Option<string>): (r: Record)
    ensures r.flag == UNMAPPED_FLAG && r.cigar == []
    ensures r.referenceId == 0 && r.referenceStart == 0 && r.mappingQuality == 0
    ensures r.nextReferenceId == 0 && r.nextReferenceStart == 0 && r.templateLength == 0
    ensures r.tags == tags && r.name == name && r.sequence == sequence && r.qualities == qualities
  {
    Record(tags, name, sequence, qualities, UNMAPPED_FLAG, 0, 0, 0, [], 0, 0, 0)
  }

  /**
   * One read group: the file name tag, the tags of every node the walk
   * visits, then the FASTQ fields and the unaligned fields. Also gives
   * `fastq_path` as the walk leaves it, for the next group of the file.
   */
  function GroupRecord(dir: Directory, baseName: string, nodes: seq<Node>, skipSignal: bool,
                       fastqPath: Option<string>, contents: map<string, string>, external: Option<string>)
    : (r: Result<(Record, Option<string>)>)
    ensures GroupTags(dir, nodes, skipSignal).Err? ==> r == Err(GroupTags(dir, nodes, skipSignal).error)
    ensures var lines := FastqLines(LastFastqPath(nodes, fastqPath), contents, external);
      GroupTags(dir, nodes, skipSignal).Ok? && lines.Err? ==> r == Err(lines.error)
    ensures var lines := FastqLines(LastFastqPath(nodes, fastqPath), contents, external);
      GroupTags(dir, nodes, skipSignal).Ok? && lines.Ok? && QueryFields(lines.value).Err? ==> r == Err(QueryFields(lines.value).error)
    ensures var lines := FastqLines(LastFastqPath(nodes, fastqPath), contents, external);
      r.Ok? <==> GroupTags(dir, nodes, skipSignal).Ok? && lines.Ok? && QueryFields(lines.value).Ok?
    ensures r.Ok? ==> r.value.1 == LastFastqPath(nodes, fastqPath)
    ensures r.Ok? ==> r.value.0.tags == ApplyTags(map[FILENAME_TAG := TextValue(baseName)], GroupTags(dir, nodes, skipSignal).value)
    ensures r.Ok? ==>
      (r.value.0.name, r.value.0.sequence, r.value.0.qualities) ==
      QueryFields(FastqLines(LastFastqPath(nodes, fastqPath), contents, external).value).value
    ensures r.Ok? ==> r.value.0.flag == UNMAPPED_FLAG && r.value.0.cigar == []
    ensures r.Ok? ==> r.value.0.referenceId == 0 && r.value.0.referenceStart == 0 && r.value.0.mappingQuality == 0
    ensures r.Ok? ==> r.value.0.nextReferenceId == 0 && r.value.0.nextReferenceStart == 0 && r.value.0.templateLength == 0
  {
    match GroupTags(dir, nodes, skipSignal)
    case Err(e) => Err(e)
    case Ok(sets) =>
      var path := LastFastqPath(nodes, fastqPath);
      match FastqLines(path, contents, external)
      case Err(e) => Err(e)
      case Ok(lines) =>
        match QueryFields(lines)
        case Err(e) => Err(e)
        case Ok((name, sequence, qualities)) =>
          Ok((Unaligned(ApplyTags(map[FILENAME_TAG := TextValue(baseName)], sets), name, sequence, qualities), path))
  }

  /**
   * A group whose last FASTQ-like node is an embedded dataset holding one
   * FASTQ record gets that record's name, bases and qualities.
   */
  lemma EmbeddedFastqRecord(dir: Directory, baseName: string, nodes: seq<Node>, skipSignal: bool,
                            fastqPath: Option<string>, contents: map<string, string>, k: nat,
                            name: string, bases: string, plus: string, quals: string)
    requires GroupTags(dir, nodes, skipSignal).Ok?
    requires k < |nodes| && IsFastqPath(nodes[k].path) && forall j :: k < j < |nodes| ==> !IsFastqPath(nodes[j].path)
    requires NoLineBreak(name) && NoLineBreak(bases) && NoLineBreak(plus) && NoLineBreak(quals)
    requires nodes[k].path in contents && contents[nodes[k].path] == JoinLines([name, bases, plus, quals])
    ensures var r := GroupRecord(dir, baseName, nodes, skipSignal, fastqPath, contents, None);
      r.Ok? && r.value.0.name == Some(name) && r.value.0.sequence == Some(bases) && r.value.0.qualities == Some(quals)
  {
    assert LastFastqPath(nodes, fastqPath) == Some(nodes[k].path);
    EmbeddedFastqFields(nodes[k].path, contents, name, bases, plus, quals);
  }

  lemma EmbeddedFastqFields(path: string, contents: map<string, string>, name: string, bases: string, plus: string, quals: string)
    requires NoLineBreak(name) && NoLineBreak(bases) && NoLineBreak(plus) && NoLineBreak(quals)
    requires path in contents && contents[path] == JoinLines([name, bases, plus, quals])
    ensures FastqLines(Some(path), contents, None).Ok?
    ensures QueryFields(FastqLines(Some(path), contents, None).value) == Ok((Some(name), Some(bases), Some(quals)))
  {
    SplitJoinLines([name, bases, plus, quals]);
    var lines := Lines(contents[path]);
    assert |lines| == 4 && lines[0] == Some(name) && lines[1] == Some(bases) && lines[3] == Some(quals);
  }

  /**
   * A run over items in order, where each item starts from the state the
   * item before it left and yields a result and the next state; the first
   * failure stops the run.
   */
  function RunSteps<I, R, S>(step: (I, S) -> Result<(R, S)>, items: seq<I>, s: S): Result<seq<R>>
    decreases |items|
  {
    if items == [] then Ok([])
    else
      match step(items[0], s)
      case Err(e) => Err(e)
      case Ok((x, s1)) =>
        match RunSteps(step, items[1..], s1)
        case Err(e) => Err(e)
        case Ok(rest) => Ok([x] + rest)
  }

  /** The state after these items, each moving it on by next. */
  function Carried<I, S>(next: (I, S) -> S, items: seq<I>, s: S): S
    decreases |items|
  {
    if items == [] then s else Carried(next, items[1..], next(items[0], s))
  }

  /** The state a successful step hands on is the one next computes. */
  ghost predicate StepFollows<I(!new), R, S(!new)>(step: (I, S) -> Result<(R, S)>, next: (I, S) -> S) {
    forall x, s :: step(x, s).Ok? ==> step(x, s).value.1 == next(x, s)
  }

  /** The step of item i, started from the state the items before it leave. */
  function StepAt<I, R, S>(step: (I, S) -> Result<(R, S)>, next: (I, S) -> S, items: seq<I>, s: S, i: nat): Result<(R, S)>
    requires i < |items|
  {
    step(items[i], Carried(next, items[..i], s))
  }

  /** rs holds the result of every item's step, in order. */
  ghost predicate StepsRecorded<I, R, S>(step: (I, S) -> Result<(R, S)>, next: (I, S) -> S, items: seq<I>, s: S, rs: seq<R>) {
    && |rs| == |items|
    && forall i :: 0 <= i < |items| ==> StepAt(step, next, items, s, i).Ok? && StepAt(step, next, items, s, i).value.0 == rs[i]
  }

  /** Item i is the first whose step fails, with error e. */
  predicate StepFailsFirst<I, R, S>(step: (I, S) -> Result<(R, S)>, next: (I, S) -> S, items: seq<I>, s: S, i: int, e: Error) {
    && 0 <= i < |items|
    && StepAt(step, next, items, s, i).Err? && StepAt(step, next, items, s, i).error == e
    && forall j :: 0 <= j < i ==> StepAt(step, next, items, s, j).Ok?
  }

  /** Item j + 1 of the run is item j of the rest, started from the state the first item leaves. */
  lemma StepAtShift<I, R, S>(step: (I, S) -> Result<(R, S)>, next: (I, S) -> S, items: seq<I>, s: S, j: nat)
    requires j + 1 < |items|
    ensures StepAt(step, next, items, s, j + 1) == StepAt(step, next, items[1..], next(items[0], s), j)
  {
    assert items[..j + 1][0] == items[0] && items[..j + 1][1..] == items[1..][..j];
    assert items[j + 1] == items[1..][j];
  }

  /**
   * A run succeeds with the results of every step in order, or fails with
   * the error of the first step that fails.
   */
  lemma {:induction false} RunStepsSpec<I(!new), R, S(!new)>(step: (I, S) -> Result<(R, S)>, next: (I, S) -> S, items: seq<I>, s: S)
    requires StepFollows(step, next)
    ensures RunSteps(step, items, s).Ok? ==> StepsRecorded(step, next, items, s, RunSteps(step, items, s).value)
    ensures RunSteps(step, items, s).Err? ==> exists i :: StepFailsFirst(step, next, items, s, i, RunSteps(step, items, s).error)
    decreases |items|
  {
    if items != [] {
      assert items[..0] == [];
      var first := step(items[0], s);
      assert StepAt(step, next, items, s, 0) == first;
      if first.Err? {
        assert StepFailsFirst(step, next, items, s, 0, first.error);
      } else {
        var s1 := next(items[0], s);
        assert first.value.1 == s1;
        RunStepsSpec(step, next, items[1..], s1);
        var rest := RunSteps(step, items[1..], s1);
        if rest.Ok? {
          forall i | 1 <= i < |items|
            ensures StepAt(step, next, items, s, i) == StepAt(step, next, items[1..], s1, i - 1)
          {
            StepAtShift(step, next, items, s, i - 1);
          }
        } else {
          var i :| StepFailsFirst(step, next, items[1..], s1, i, rest.error);
          forall j | 0 <= j < i + 1
            ensures StepAt(step, next, items, s, j).Ok?
          {
            if j > 0 {
              StepAtShift(step, next, items, s, j - 1);
            }
          }
          StepAtShift(step, next, items, s, i);
          assert RunSteps(step, items, s) == Err(rest.error);
          assert StepFailsFirst(step, next, items, s, i + 1, rest.error);
        }
      }
    }
  }

  /** The record of one read group, as a step that hands `fastq_path` on to the next group. */
  function GroupStep(dir: Directory, baseName: string, skipSignal: bool, contents: map<string, string>,
                     external: Option<string>): (seq<Node>, Option<string>) -> Result<(Record, Option<string>)>
  {
    (nodes, fastqPath) => GroupRecord(dir, baseName, nodes, skipSignal, fastqPath, contents, external)
  }

  /** `fastq_path` after the walks of these groups, one after the other. */
  function CarriedPath(groups: seq<seq<Node>>, fastqPath: Option<string>): Option<string> {
    Carried(LastFastqPath, groups, fastqPath)
  }

  /**
   * records holds the record of every group, group i starting from the
   * `fastq_path` the groups before it left: records[i] is the record of
   * GroupRecord(groups[i], CarriedPath(groups[..i], fastqPath)) (GroupRecordAt).
   */
  ghost predicate GroupsRecorded(dir: Directory, baseName: string, groups: seq<seq<Node>>, skipSignal: bool,
                                 fastqPath: Option<string>, contents: map<string, string>, external: Option<string>,
                                 records: seq<Record>) {
    StepsRecorded(GroupStep(dir, baseName, skipSignal, contents, external), LastFastqPath, groups, fastqPath, records)
  }

  /** Group i is the first whose record fails, with error e. */
  predicate GroupFailsFirst(dir: Directory, baseName: string, groups: seq<seq<Node>>, skipSignal: bool,
                            fastqPath: Option<string>, contents: map<string, string>, external: Option<string>,
                            i: int, e: Error) {
    StepFailsFirst(GroupStep(dir, baseName, skipSignal, contents, external), LastFastqPath, groups, fastqPath, i, e)
  }

  /** What GroupsRecorded and GroupFailsFirst say of group i, in terms of GroupRecord. */
  lemma GroupRecordAt(dir: Directory, baseName: string, groups: seq<seq<Node>>, skipSignal: bool,
                      fastqPath: Option<string>, contents: map<string, string>, external: Option<string>, i: nat)
    requires i < |groups|
    ensures StepAt(GroupStep(dir, baseName, skipSignal, contents, external), LastFastqPath, groups, fastqPath, i) ==
      GroupRecord(dir, baseName, groups[i], skipSignal, CarriedPath(groups[..i], fastqPath), contents, external)
  {
  }

  lemma GroupStepFollows(dir: Directory, baseName: string, skipSignal: bool, contents: map<string, string>, external: Option<string>)
    ensures StepFollows(GroupStep(dir, baseName, skipSignal, contents, external), LastFastqPath)
  {
    var step := GroupStep(dir, baseName, skipSignal, contents, external);
    forall nodes, fastqPath | step(nodes, fastqPath).Ok?
      ensures step(nodes, fastqPath).value.1 == LastFastqPath(nodes, fastqPath)
    {
      assert step(nodes, fastqPath) == GroupRecord(dir, baseName, nodes, skipSignal, fastqPath, contents, external);
    }
  }

  /** The groups of one file in order, `fastq_path` carried from each group to the next. */
  function GroupsRecords(dir: Directory, baseName: string, groups: seq<seq<Node>>, skipSignal: bool,
                         fastqPath: Option<string>, contents: map<string, string>, external: Option<string>)
    : (r: Result<seq<Record>>)
    ensures r.Ok? ==> GroupsRecorded(dir, baseName, groups, skipSignal, fastqPath, contents, external, r.value)
    ensures r.Err? ==> exists i :: GroupFailsFirst(dir, baseName, groups, skipSignal, fastqPath, contents, external, i, r.error)
  {
    var step := GroupStep(dir, baseName, skipSignal, contents, external);
    GroupStepFollows(dir, baseName, skipSignal, contents, external);
    RunStepsSpec(step, LastFastqPath, groups, fastqPath);
    var r := RunSteps(step, groups, fastqPath);
    if r.Ok? then r
    else
      var i :| StepFailsFirst(step, LastFastqPath, groups, fastqPath, i, r.error);
      assert GroupFailsFirst(dir, baseName, groups, skipSignal, fastqPath, contents, external, i, r.error);
      r
  }

  /**
   * What the encoding pass reads of one input file: its base name, its
   * top-level names in iteration order, the nodes `visititems` visits from
   * the file's root and from each top-level group, and the text of its
   * datasets by absolute name.
   */
  datatype InputFile = InputFile(
    baseName: string, children: seq<string>,
    rootNodes: seq<Node>, childNodes: seq<seq<Node>>,
    contents: map<string, string>)

  /** The read groups of a file: its top-level groups when it holds many reads, else the file itself. */
  function ReadGroups(file: InputFile): (groups: seq<seq<Node>>)
    requires file.children != []
    ensures ManyReads(file.children) == Ok(true) ==> groups == file.childNodes
    ensures ManyReads(file.children) == Ok(false) ==> groups == [file.rootNodes]
  {
    if StartsWith(file.children[0], "read_") then file.childNodes else [file.rootNodes]
  }

  /** The records one file yields, one per read group in order; `fastq_path` starts unset once per file. */
  function FileRecords(dir: Directory, file: InputFile, skipSignal: bool, external: Option<string>): (r: Result<seq<Record>>)
    ensures file.children == [] ==> r == Err(EmptyFile)
    ensures r.Ok? ==> |r.value| == if StartsWith(file.children[0], "read_") then |file.childNodes| else 1
    ensures file.children != [] && r.Ok? ==>
      GroupsRecorded(dir, file.baseName, ReadGroups(file), skipSignal, None, file.contents, external, r.value)
    ensures file.children != [] && r.Err? ==>
      exists i :: GroupFailsFirst(dir, file.baseName, ReadGroups(file), skipSignal, None, file.contents, external, i, r.error)
  {
    match ManyReads(file.children)
    case Err(e) => Err(e)
    case Ok(many) => GroupsRecords(dir, file.baseName, ReadGroups(file), skipSignal, None, file.contents, external)
  }

  /**
   * When a later group of the same file has no FASTQ dataset of its own and
   * no FASTQ directory is given, its record repeats the name, bases and
   * qualities of the group before it, because `fastq_path` is not reset
   * between the groups of a file.
   */
  lemma FastqPathCarriesOver(dir: Directory, baseName: string, g1: seq<Node>, g2: seq<Node>,
                              skipSignal: bool, contents: map<string, string>)
    requires forall k :: 0 <= k < |g2| ==> !IsFastqPath(g2[k].path)
    requires GroupsRecords(dir, baseName, [g1, g2], skipSignal, None, contents, None).Ok?
    ensures var rs := GroupsRecords(dir, baseName, [g1, g2], skipSignal, None, contents, None).value;
      rs[1].name == rs[0].name && rs[1].sequence == rs[0].sequence && rs[1].qualities == rs[0].qualities
  {
    var groups := [g1, g2];
    GroupRecordAt(dir, baseName, groups, skipSignal, None, contents, None, 0);
    GroupRecordAt(dir, baseName, groups, skipSignal, None, contents, None, 1);
    var path := LastFastqPath(g1, None);
    assert groups[..0] == [] && groups[..1] == [g1];
    assert CarriedPath([g1], None) == Carried(LastFastqPath, [], path);
    assert LastFastqPath(g2, path) == path;
  }

  /** With a FASTQ directory, every group of a file reads the same FASTQ file and gets the same fields. */
  lemma ExternalFastqShared(dir: Directory, baseName: string, groups: seq<seq<Node>>, skipSignal: bool,
                            fastqPath: Option<string>, contents: map<string, string>, text: string, i: nat)
    requires GroupsRecords(dir, baseName, groups, skipSignal, fastqPath, contents, Some(text)).Ok?
    requires i < |groups|
    ensures |SplitLines(text)| == 4
    ensures var rs := GroupsRecords(dir, baseName, groups, skipSignal, fastqPath, contents, Some(text)).value;
      rs[i].name == Some(SplitLines(text)[0]) && rs[i].sequence == Some(SplitLines(text)[1]) &&
      rs[i].qualities == Some(SplitLines(text)[3])
  {
    GroupRecordAt(dir, baseName, groups, skipSignal, fastqPath, contents, Some(text), i);
    var path := LastFastqPath(groups[i], CarriedPath(groups[..i], fastqPath));
    assert FastqLines(path, contents, Some(text)) == ReadFastqFromFile(text);
  }

  /** Every key discovery stored is tagged by the header loop, with a tag that is neither X0 nor X1. */
  lemma KeyTagged(d: Directory, totalFiles: nat, key: string)
    requires WellFormed(d) && |d.keys| <= MAX_KEYS && key in d.entries
    ensures GetTagNameCv(Tagged(d, totalFiles), key) ==
      Ok((TagName(IndexOf(d.keys, key)), Default(key, d.entries[key], totalFiles)))
    ensures TagName(IndexOf(d.keys, key)) != FILENAME_TAG && TagName(IndexOf(d.keys, key)) != READ_NUM_TAG
  {
    var i := IndexOf(d.keys, key);
    LookupAfterHeader(d, totalFiles, i);
    ReservedTagsFree(i);
  }

  /**
   * After the header loop, an attribute is left out of the record exactly
   * when its rendering is the default written in the header, so a reader
   * gets every value back; a key without a default, a column's or one whose
   * name holds "read_number", is always written.
   */
  lemma AttrTagAfterHeader(d: Directory, totalFiles: nat, key: string, v: Value)
    requires WellFormed(d) && |d.keys| <= MAX_KEYS && key in d.entries
    ensures AttrTag(Tagged(d, totalFiles), key, v) == Ok(None) <==> Default(key, d.entries[key], totalFiles) == Some(v.rendering)
    ensures Default(key, d.entries[key], totalFiles).None? ==> AttrTag(Tagged(d, totalFiles), key, v) != Ok(None)
    ensures Contains(key, "read_number") ==> AttrTag(Tagged(d, totalFiles), key, v) != Ok(None)
    ensures AttrTag(Tagged(d, totalFiles), key, v).Ok? && AttrTag(Tagged(d, totalFiles), key, v).value.Some? ==>
      AttrTag(Tagged(d, totalFiles), key, v).value.value.0 == TagName(IndexOf(d.keys, key))
  {
    KeyTagged(d, totalFiles, key);
  }

  /** The errors the encoding pass can still hit once every lookup is known to succeed. */
  predicate ContentError(e: Error) {
    e.EmptyColumn? || e.MixedColumn? || e.UnknownType?
  }

  predicate AvoidsTag(sets: seq<(string, TagValue)>, t: string) {
    forall k :: 0 <= k < |sets| ==> sets[k].0 != t
  }

  /** The key has a tag in dir, and it is not the file name's. */
  ghost predicate TaggedKey(dir: Directory, key: string) {
    GetTagNameCv(dir, key).Ok? && GetTagNameCv(dir, key).value.0 != FILENAME_TAG
  }

  /** Every key of d is tagged in dir. */
  ghost predicate AllTagged(dir: Directory, d: Directory) {
    forall key :: key in d.entries ==> TaggedKey(dir, key)
  }

  lemma HeaderTagsAll(d: Directory, totalFiles: nat)
    requires WellFormed(d) && |d.keys| <= MAX_KEYS
    ensures AllTagged(Tagged(d, totalFiles), d)
  {
    forall key | key in d.entries
      ensures TaggedKey(Tagged(d, totalFiles), key)
    {
      KeyTagged(d, totalFiles, key);
    }
  }

  lemma ColumnTagsFound(dir: Directory, path: string, columns: seq<Column>)
    requires forall c :: c in columns ==> TaggedKey(dir, ColumnKey(path, c))
    ensures ColumnTags(dir, path, columns).Err? ==> ContentError(ColumnTags(dir, path, columns).error)
    ensures ColumnTags(dir, path, columns).Ok? ==> AvoidsTag(ColumnTags(dir, path, columns).value, FILENAME_TAG)
  {
    var r := ColumnTags(dir, path, columns);
    if r.Err? {
      var k :| ColumnFailsFirst(dir, path, columns, k, r.error);
      assert columns[k] in columns;
    } else {
      forall i | 0 <= i < |r.value| ensures r.value[i].0 != FILENAME_TAG {
        assert columns[i] in columns;
      }
    }
  }

  lemma AttrsTagsFound(dir: Directory, path: string, attrs: seq<(string, Value)>)
    requires forall a :: a in attrs ==> TaggedKey(dir, AttrKey(path, a))
    ensures AttrsTags(dir, path, attrs).Err? ==> ContentError(AttrsTags(dir, path, attrs).error)
    ensures AttrsTags(dir, path, attrs).Ok? ==> AvoidsTag(AttrsTags(dir, path, attrs).value, FILENAME_TAG)
  {
    var r := AttrsTags(dir, path, attrs);
    if r.Err? {
      var k :| AttrFailsFirst(dir, path, attrs, k, r.error);
      assert attrs[k] in attrs;
    } else {
      forall i | 0 <= i < |r.value| ensures r.value[i].0 != FILENAME_TAG {
        var k :| 0 <= k < |attrs| && AttrTag(dir, AttrKey(path, attrs[k]), attrs[k].1) == Ok(Some(r.value[i]));
        assert attrs[k] in attrs;
      }
    }
  }

  /**
   * A node whose keys are all tagged is encoded without a failed lookup,
   * and none of its tags overwrites the file name.
   */
  lemma NodeTagsFound(dir: Directory, d: Directory, node: Node, skipSignal: bool)
    requires AllTagged(dir, d) && Registered(d, node)
    ensures NodeTags(dir, node, skipSignal).Err? ==> ContentError(NodeTags(dir, node, skipSignal).error)
    ensures NodeTags(dir, node, skipSignal).Ok? ==> AvoidsTag(NodeTags(dir, node, skipSignal).value, FILENAME_TAG)
  {
    NodeColumnTagsFound(dir, d, node, skipSignal);
    AttrsTagsFound(dir, NodeKey(node), node.attrs);
    var r := NodeTags(dir, node, skipSignal);
    if r.Ok? {
      var rn := ReadNumberTags(node.path);
      var cs := NodeColumnTags(dir, node, skipSignal).value;
      var ats := AttrsTags(dir, NodeKey(node), node.attrs).value;
      assert AvoidsTag(rn, FILENAME_TAG);
      AvoidsTagConcat(rn, cs, FILENAME_TAG);
      AvoidsTagConcat(rn + cs, ats, FILENAME_TAG);
    }
  }

  lemma AvoidsTagConcat(a: seq<(string, TagValue)>, b: seq<(string, TagValue)>, t: string)
    requires AvoidsTag(a, t) && AvoidsTag(b, t)
    ensures AvoidsTag(a + b, t)
  {
    assert forall k :: |a| <= k < |a + b| ==> (a + b)[k] == b[k - |a|];
  }

  lemma NodeColumnTagsFound(dir: Directory, d: Directory, node: Node, skipSignal: bool)
    requires AllTagged(dir, d) && Registered(d, node)
    ensures NodeColumnTags(dir, node, skipSignal).Err? ==> ContentError(NodeColumnTags(dir, node, skipSignal).error)
    ensures NodeColumnTags(dir, node, skipSignal).Ok? ==> AvoidsTag(NodeColumnTags(dir, node, skipSignal).value, FILENAME_TAG)
  {
    var name := NodeKey(node);
    if node.kind.Dataset? && !DatasetSkipped(name, skipSignal) {
      ColumnTagsFound(dir, name, node.kind.columns);
    }
  }

  lemma {:induction false} GroupTagsFound(dir: Directory, d: Directory, nodes: seq<Node>, skipSignal: bool)
    requires AllTagged(dir, d)
    requires forall k :: 0 <= k < |nodes| ==> Registered(d, nodes[k])
    ensures GroupTags(dir, nodes, skipSignal).Err? ==> ContentError(GroupTags(dir, nodes, skipSignal).error)
    ensures GroupTags(dir, nodes, skipSignal).Ok? ==> AvoidsTag(GroupTags(dir, nodes, skipSignal).value, FILENAME_TAG)
    decreases |nodes|
  {
    if nodes != [] {
      NodeTagsFound(dir, d, nodes[0], skipSignal);
      assert forall k :: 0 <= k < |nodes[1..]| ==> nodes[1..][k] == nodes[k + 1];
      GroupTagsFound(dir, d, nodes[1..], skipSignal);
    }
  }

  /**
   * A group whose keys are all tagged keeps the name of its input file
   * under X1, and fails only on a column or type problem or on its FASTQ,
   * never on a missing tag.
   */
  lemma GroupRecordFound(dir: Directory, d: Directory, baseName: string, nodes: seq<Node>, skipSignal: bool,
                         fastqPath: Option<string>, contents: map<string, string>, external: Option<string>)
    requires AllTagged(dir, d)
    requires forall k :: 0 <= k < |nodes| ==> Registered(d, nodes[k])
    ensures var r := GroupRecord(dir, baseName, nodes, skipSignal, fastqPath, contents, external);
      r.Ok? ==> FILENAME_TAG in r.value.0.tags && r.value.0.tags[FILENAME_TAG] == TextValue(baseName)
    ensures var r := GroupRecord(dir, baseName, nodes, skipSignal, fastqPath, contents, external);
      r.Err? ==> ContentError(r.error) || r.error.FastqNotDataset? || r.error.InvalidFastq? || r.error.MissingFastqLine?
  {
    GroupTagsFound(dir, d, nodes, skipSignal);
    var sets := GroupTags(dir, nodes, skipSignal);
    if sets.Ok? {
      ApplyTagsKeeps(map[FILENAME_TAG := TextValue(baseName)], sets.value, FILENAME_TAG);
    }
  }

  /** The same for the directory the header loop leaves behind. */
  lemma GroupRecordAfterHeader(d: Directory, totalFiles: nat, baseName: string, nodes: seq<Node>, skipSignal: bool,
                               fastqPath: Option<string>, contents: map<string, string>, external: Option<string>)
    requires WellFormed(d) && |d.keys| <= MAX_KEYS
    requires forall k :: 0 <= k < |nodes| ==> Registered(d, nodes[k])
    ensures var r := GroupRecord(Tagged(d, totalFiles), baseName, nodes, skipSignal, fastqPath, contents, external);
      r.Ok? ==> FILENAME_TAG in r.value.0.tags && r.value.0.tags[FILENAME_TAG] == TextValue(baseName)
  {
    HeaderTagsAll(d, totalFiles);
    GroupRecordFound(Tagged(d, totalFiles), d, baseName, nodes, skipSignal, fastqPath, contents, external);
  }
}
