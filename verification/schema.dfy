/**
 * The directory the discovery pass builds (`global_dict_attributes`), as a
 * value: every key in the order it was first seen, and for each key a pair
 * whose first slot holds a column's type code or an attribute's first value
 * and whose second slot holds a count (later the tag text). The update rules
 * of `process_dataset` and `pre_process_group_attrs` are functions on this
 * value; the SchemaDirectory class in module Store performs them in place.
 */
module Schema {
  import opened Common
  import opened Nodes
  import opened TypeCodes
  import opened ReadPath

  /** The first slot of an entry. */
  datatype First = TypeCode(code: string) | FirstValue(value: Value)

  /** The second slot: an occurrence count during discovery, the "TG:.." text once the header is written. */
  datatype Mark = Count(n: nat) | TagText(text: string)

  datatype Entry = Entry(first: First, mark: Mark)

  /** A Python dict: the entries, and their keys in insertion order. */
  datatype Directory = Directory(keys: seq<string>, entries: map<string, Entry>)

  const EMPTY: Directory := Directory([], map[])

  predicate Distinct(keys: seq<string>) {
    forall i, j :: 0 <= i < j < |keys| ==> keys[i] != keys[j]
  }

  /** The key order lists each key of the map exactly once. */
  ghost predicate Valid(d: Directory) {
    Distinct(d.keys) && forall k :: k in d.entries <==> k in d.keys
  }

  /**
   * The shape discovery leaves every entry in: all second slots are counts,
   * a column holds a type code and the count 0, an attribute holds a value
   * and a count of at least 1. It is what lets the header loop tell columns
   * from attributes by `val[1] == 0`.
   */
  ghost predicate WellFormed(d: Directory) {
    Valid(d) &&
    forall k :: k in d.entries ==>
      d.entries[k].mark.Count? && (d.entries[k].first.TypeCode? <==> d.entries[k].mark.n == 0)
  }

  /**
   * d2 grew out of d: the old key order is a prefix of the new one, and every
   * old entry keeps its first slot and a count at least as large.
   */
  ghost predicate Grown(d: Directory, d2: Directory) {
    |d.keys| <= |d2.keys| && d2.keys[..|d.keys|] == d.keys &&
    forall k :: k in d.entries ==>
      k in d2.entries && d2.entries[k].first == d.entries[k].first &&
      (d.entries[k].mark.Count? ==> d2.entries[k].mark.Count? && d.entries[k].mark.n <= d2.entries[k].mark.n)
  }

  lemma GrownTransitive(d1: Directory, d2: Directory, d3: Directory)
    requires Grown(d1, d2) && Grown(d2, d3)
    ensures Grown(d1, d3)
  {
    assert d3.keys[..|d1.keys|] == d3.keys[..|d2.keys|][..|d1.keys|];
  }

  /** `d[key] = e`: a new key goes to the end of the order, an existing key keeps its place. */
  function Put(d: Directory, key: string, e: Entry): (r: Directory)
    requires Valid(d)
    ensures Valid(r) && r.entries == d.entries[key := e]
    ensures r.keys == if key in d.entries then d.keys else d.keys + [key]
  {
    if key in d.entries then Directory(d.keys, d.entries[key := e])
    else Directory(d.keys + [key], d.entries[key := e])
  }

  /**
   * One column sighting in `process_dataset`: a new key is stored with its
   * type and count 0; a key that holds a type code must hold one TypesEqual
   * accepts, or the run stops; a key that holds an attribute value cannot be
   * compared as a type and also stops the run.
   */
  function ColumnStep(d: Directory, key: string, colType: string): (r: Result<Directory>)
    requires Valid(d)
    ensures r.Ok? ==> Valid(r.value)
    ensures key !in d.entries ==> r.Ok? && r.value.keys == d.keys + [key]
    ensures key !in d.entries ==> r.value.entries == d.entries[key := Entry(TypeCode(colType), Count(0))]
    ensures key in d.entries ==> (r.Ok? <==> d.entries[key].first.TypeCode? && TypesEqual(d.entries[key].first.code, colType))
    ensures key in d.entries && r.Ok? ==> r.value == d
    ensures r.Err? ==> key in d.entries
    ensures r.Err? && d.entries[key].first.FirstValue? ==> r.error == NotATypeCode(key)
    ensures r.Err? && d.entries[key].first.TypeCode? ==> r.error == ColumnTypeConflict(key, d.entries[key].first.code, colType)
  {
    if key !in d.entries then Ok(Put(d, key, Entry(TypeCode(colType), Count(0))))
    else match d.entries[key].first
      case TypeCode(stored) =>
        if TypesEqual(stored, colType) then Ok(d) else Err(ColumnTypeConflict(key, stored, colType))
      case FirstValue(_) => Err(NotATypeCode(key))
  }

  /** The columns of one dataset, keyed "path/name", in their order; the first failure ends the pass. */
  function ColumnsStep(d: Directory, path: string, columns: seq<Column>): (r: Result<Directory>)
    requires Valid(d)
    ensures r.Ok? ==> Valid(r.value) && Grown(d, r.value)
    ensures r.Ok? && WellFormed(d) ==> WellFormed(r.value)
    ensures r.Ok? ==> forall c :: c in columns ==> path + "/" + c.name in r.value.entries
    ensures r.Err? ==> r.error.NotATypeCode? || r.error.ColumnTypeConflict?
    decreases |columns|
  {
    if columns == [] then Ok(d)
    else
      var c := columns[0];
      match ColumnStep(d, path + "/" + c.name, ConvertT(c.typeText))
      case Err(e) => Err(e)
      case Ok(d1) =>
        ColumnStepGrows(d, path + "/" + c.name, ConvertT(c.typeText));
        var r := ColumnsStep(d1, path, columns[1..]);
        if r.Ok? then GrownTransitive(d, d1, r.value); r else r
  }

  /** `process_dataset` of the discovery pass: datasets under a FASTQ path are skipped. */
  function DatasetStep(d: Directory, path: string, columns: seq<Column>): (r: Result<Directory>)
    requires Valid(d)
    ensures IsFastqPath(path) ==> r == Ok(d)
    ensures !IsFastqPath(path) ==> r == ColumnsStep(d, path, columns)
  {
    if IsFastqPath(path) then Ok(d) else ColumnsStep(d, path, columns)
  }

  /**
   * One attribute sighting in `pre_process_group_attrs`: a new key is stored
   * with the value and count 1; otherwise the count goes up by one exactly
   * when the value equals the stored first value, which never changes.
   */
  function AttrStep(d: Directory, key: string, v: Value): (r: Result<Directory>)
    requires Valid(d)
    ensures r.Ok? ==> Valid(r.value)
    ensures key !in d.entries ==> r.Ok? && r.value.keys == d.keys + [key]
    ensures key !in d.entries ==> r.value.entries == d.entries[key := Entry(FirstValue(v), Count(1))]
    ensures key in d.entries && d.entries[key].mark.Count? ==>
      r.Ok? && r.value.keys == d.keys &&
      r.value.entries == d.entries[key := Entry(d.entries[key].first,
        Count(d.entries[key].mark.n + if d.entries[key].first == FirstValue(v) then 1 else 0))]
    ensures key in d.entries && d.entries[key].mark.TagText? ==>
      r == (if d.entries[key].first == FirstValue(v) then Err(CountNotNumeric(key)) else Ok(d))
  {
    if key !in d.entries then Ok(Put(d, key, Entry(FirstValue(v), Count(1))))
    else
      var pair := d.entries[key];
      if pair.first == FirstValue(v) then
        match pair.mark
        case Count(n) => Ok(Put(d, key, Entry(pair.first, Count(n + 1))))
        case TagText(_) => Err(CountNotNumeric(key))
      else Ok(d)  // `global_dict_attributes[full_key] = pair` puts back the same pair
  }

  /** A repeated sighting of the first value raises the count in place. */
  lemma AttrStepRepeat(d: Directory, key: string, v: Value, n: nat)
    requires Valid(d) && key in d.entries && d.entries[key] == Entry(FirstValue(v), Count(n))
    ensures AttrStep(d, key, v) == Ok(Directory(d.keys, d.entries[key := Entry(FirstValue(v), Count(n + 1))]))
  {
  }

  /** A column sighting keeps the directory's shape and only adds to it. */
  lemma ColumnStepGrows(d: Directory, key: string, colType: string)
    requires Valid(d) && ColumnStep(d, key, colType).Ok?
    ensures Grown(d, ColumnStep(d, key, colType).value)
    ensures WellFormed(d) ==> WellFormed(ColumnStep(d, key, colType).value)
  {
  }

  /** So does an attribute sighting. */
  lemma AttrStepGrows(d: Directory, key: string, v: Value)
    requires Valid(d) && AttrStep(d, key, v).Ok?
    ensures Grown(d, AttrStep(d, key, v).value)
    ensures WellFormed(d) ==> WellFormed(AttrStep(d, key, v).value)
  {
  }

  /** The attributes of one node, keyed "path/name", in their stored order. */
  function AttrsStep(d: Directory, path: string, attrs: seq<(string, Value)>): (r: Result<Directory>)
    requires Valid(d)
    ensures r.Ok? ==> Valid(r.value) && Grown(d, r.value)
    ensures r.Ok? && WellFormed(d) ==> WellFormed(r.value)
    ensures WellFormed(d) ==> r.Ok?
    ensures r.Ok? ==> forall a :: a in attrs ==> path + "/" + a.0 in r.value.entries
    ensures r.Err? ==> r.error.CountNotNumeric?
    decreases |attrs|
  {
    if attrs == [] then Ok(d)
    else
      match AttrStep(d, path + "/" + attrs[0].0, attrs[0].1)
      case Err(e) => Err(e)
      case Ok(d1) =>
        AttrStepGrows(d, path + "/" + attrs[0].0, attrs[0].1);
        var r := AttrsStep(d1, path, attrs[1..]);
        if r.Ok? then GrownTransitive(d, d1, r.value); r else r
  }

  /** The key under which a node's entries are filed: its name with the read id replaced. */
  function NodeKey(node: Node): string {
    RemoveReadNumber(node.path).0
  }

  /**
   * A node whose name has no read id is filed under its own name; one with a
   * read id is filed under the name with that id replaced by "XXX".
   */
  lemma NodeKeyShape(node: Node)
    ensures !Contains(LowerStr(node.path), MARKER) ==> NodeKey(node) == node.path
    ensures RemoveReadNumber(node.path).1.None? ==> NodeKey(node) == node.path
    ensures RemoveReadNumber(node.path).1.Some? ==>
      exists prefix, suffix :: RegexGroups(node.path, prefix, RemoveReadNumber(node.path).1.value, suffix) && NodeKey(node) == prefix + PLACEHOLDER + suffix
  {
  }

  /**
   * d holds every key the encoding pass looks up for this node: one per
   * attribute, and one per column unless the node is a FASTQ dataset.
   */
  ghost predicate Registered(d: Directory, node: Node) {
    (forall a :: a in node.attrs ==> NodeKey(node) + "/" + a.0 in d.entries) &&
    (node.kind.Dataset? && !IsFastqPath(NodeKey(node)) ==>
      forall c :: c in node.kind.columns ==> NodeKey(node) + "/" + c.name in d.entries)
  }

  /** A registered node stays registered as the directory grows. */
  lemma RegisteredGrown(d1: Directory, d2: Directory, node: Node)
    requires Registered(d1, node) && Grown(d1, d2)
    ensures Registered(d2, node)
  {
  }

  /** `pre_process_group_attrs` for one visited node: its columns (for a dataset), then its attributes. */
  function NodeStep(d: Directory, node: Node): (r: Result<Directory>)
    requires Valid(d)
    ensures r.Ok? ==> Valid(r.value) && Grown(d, r.value)
    ensures r.Ok? && WellFormed(d) ==> WellFormed(r.value)
    ensures r.Ok? ==> Registered(r.value, node)
    ensures r.Err? && WellFormed(d) ==> r.error.NotATypeCode? || r.error.ColumnTypeConflict?
  {
    var path := NodeKey(node);
    var d1 := if node.kind.Dataset? then DatasetStep(d, path, node.kind.columns) else Ok(d);
    match d1
    case Err(e) => Err(e)
    case Ok(d2) =>
      var r := AttrsStep(d2, path, node.attrs);
      if r.Ok? then GrownTransitive(d, d2, r.value); r else r
  }

  /** One file's discovery walk: the root first, then every node `visititems` reaches, in that order. */
  function FileStep(d: Directory, nodes: seq<Node>): (r: Result<Directory>)
    requires Valid(d)
    ensures r.Ok? ==> Valid(r.value) && Grown(d, r.value)
    ensures r.Ok? && WellFormed(d) ==> WellFormed(r.value)
    ensures r.Ok? ==> forall k :: 0 <= k < |nodes| ==> Registered(r.value, nodes[k])
    ensures r.Err? && WellFormed(d) ==> r.error.NotATypeCode? || r.error.ColumnTypeConflict?
    decreases |nodes|
  {
    if nodes == [] then Ok(d)
    else
      match NodeStep(d, nodes[0])
      case Err(e) => Err(e)
      case Ok(d1) =>
        var r := FileStep(d1, nodes[1..]);
        if r.Ok? then
          GrownTransitive(d, d1, r.value);
          FileRegisters(d1, r.value, nodes);
          r
        else r
  }

  /** The whole discovery pass over the input files, starting from the empty directory. */
  function Discover(files: seq<seq<Node>>): (r: Result<Directory>)
    ensures r.Ok? ==> WellFormed(r.value)
    ensures r.Ok? ==> forall i, k :: 0 <= i < |files| && 0 <= k < |files[i]| ==> Registered(r.value, files[i][k])
    ensures r.Err? ==> r.error.NotATypeCode? || r.error.ColumnTypeConflict?
  {
    DiscoverFrom(EMPTY, files)
  }

  function DiscoverFrom(d: Directory, files: seq<seq<Node>>): (r: Result<Directory>)
    requires WellFormed(d)
    ensures r.Ok? ==> WellFormed(r.value) && Grown(d, r.value)
    ensures r.Ok? ==> forall i, k :: 0 <= i < |files| && 0 <= k < |files[i]| ==> Registered(r.value, files[i][k])
    ensures r.Err? ==> r.error.NotATypeCode? || r.error.ColumnTypeConflict?
    decreases |files|
  {
    if files == [] then Ok(d)
    else
      match FileStep(d, files[0])
      case Err(e) => Err(e)
      case Ok(d1) =>
        var r := DiscoverFrom(d1, files[1..]);
        if r.Ok? then
          GrownTransitive(d, d1, r.value);
          FilesRegister(d1, r.value, files);
          r
        else r
  }

  /** The first node, registered before the rest of the walk, stays registered after it. */
  lemma FileRegisters(d1: Directory, d2: Directory, nodes: seq<Node>)
    requires nodes != [] && Registered(d1, nodes[0]) && Grown(d1, d2)
    requires forall k :: 0 <= k < |nodes[1..]| ==> Registered(d2, nodes[1..][k])
    ensures forall k :: 0 <= k < |nodes| ==> Registered(d2, nodes[k])
  {
    RegisteredGrown(d1, d2, nodes[0]);
    forall k | 1 <= k < |nodes| ensures Registered(d2, nodes[k]) {
      assert nodes[k] == nodes[1..][k - 1];
    }
  }

  /** The same for the nodes of the first file. */
  lemma FilesRegister(d1: Directory, d2: Directory, files: seq<seq<Node>>)
    requires files != [] && Grown(d1, d2)
    requires forall k :: 0 <= k < |files[0]| ==> Registered(d1, files[0][k])
    requires forall i, k :: 0 <= i < |files[1..]| && 0 <= k < |files[1..][i]| ==> Registered(d2, files[1..][i][k])
    ensures forall i, k :: 0 <= i < |files| && 0 <= k < |files[i]| ==> Registered(d2, files[i][k])
  {
    DiscoverRegistersFirst(d1, d2, files[0]);
    forall i, k | 1 <= i < |files| && 0 <= k < |files[i]| ensures Registered(d2, files[i][k]) {
      assert files[i] == files[1..][i - 1];
    }
  }

  lemma DiscoverRegistersFirst(d1: Directory, d2: Directory, nodes: seq<Node>)
    requires forall k :: 0 <= k < |nodes| ==> Registered(d1, nodes[k])
    requires Grown(d1, d2)
    ensures forall k :: 0 <= k < |nodes| ==> Registered(d2, nodes[k])
  {
    forall k | 0 <= k < |nodes| ensures Registered(d2, nodes[k]) {
      RegisteredGrown(d1, d2, nodes[k]);
    }
  }

  /** How often the attributes of the node at path show the value v under key. */
  function AttrSightings(path: string, attrs: seq<(string, Value)>, key: string, v: Value): nat
    decreases |attrs|
  {
    if attrs == [] then 0
    else (if path + "/" + attrs[0].0 == key && attrs[0].1 == v then 1 else 0) + AttrSightings(path, attrs[1..], key, v)
  }

  /** How often a walk over these nodes shows the value v under key. */
  function NodesSightings(nodes: seq<Node>, key: string, v: Value): nat
    decreases |nodes|
  {
    if nodes == [] then 0 else AttrSightings(NodeKey(nodes[0]), nodes[0].attrs, key, v) + NodesSightings(nodes[1..], key, v)
  }

  /** How often the walks over these files show the value v under key. */
  function FilesSightings(files: seq<seq<Node>>, key: string, v: Value): nat
    decreases |files|
  {
    if files == [] then 0 else NodesSightings(files[0], key, v) + FilesSightings(files[1..], key, v)
  }

  /** The count d holds for key when v is the key's first value, 0 otherwise. */
  function StoredCount(d: Directory, key: string, v: Value): nat {
    if key in d.entries && d.entries[key].first == FirstValue(v) && d.entries[key].mark.Count?
    then d.entries[key].mark.n else 0
  }

  /**
   * Going from d to r added s sightings of v under key: if r holds v as the
   * key's first value, its count is d's count plus s; if r does not hold the
   * key at all, there were none.
   */
  ghost predicate CountedFrom(d: Directory, r: Directory, key: string, v: Value, s: nat) {
    (key in r.entries && r.entries[key].first == FirstValue(v) ==> r.entries[key].mark == Count(StoredCount(d, key, v) + s)) &&
    (key !in r.entries ==> s == 0)
  }

  lemma CountedCompose(d: Directory, d1: Directory, d2: Directory, key: string, v: Value, s1: nat, s2: nat)
    requires WellFormed(d1) && Grown(d, d1) && Grown(d1, d2)
    requires CountedFrom(d, d1, key, v, s1) && CountedFrom(d1, d2, key, v, s2)
    ensures CountedFrom(d, d2, key, v, s1 + s2)
  {
  }

  /** A column sighting is stored with count 0 and leaves every attribute's count alone. */
  lemma ColumnStepCounted(d: Directory, k: string, t: string, key: string, v: Value)
    requires WellFormed(d) && ColumnStep(d, k, t).Ok?
    ensures WellFormed(ColumnStep(d, k, t).value) && Grown(d, ColumnStep(d, k, t).value)
    ensures CountedFrom(d, ColumnStep(d, k, t).value, key, v, 0)
  {
    ColumnStepGrows(d, k, t);
  }

  lemma {:induction false} ColumnsCounted(d: Directory, path: string, columns: seq<Column>, key: string, v: Value)
    requires WellFormed(d) && ColumnsStep(d, path, columns).Ok?
    ensures CountedFrom(d, ColumnsStep(d, path, columns).value, key, v, 0)
    decreases |columns|
  {
    if columns != [] {
      var k, t := path + "/" + columns[0].name, ConvertT(columns[0].typeText);
      var d1 := ColumnStep(d, k, t).value;
      ColumnStepCounted(d, k, t, key, v);
      assert ColumnsStep(d, path, columns) == ColumnsStep(d1, path, columns[1..]);
      ColumnsCounted(d1, path, columns[1..], key, v);
      CountedCompose(d, d1, ColumnsStep(d1, path, columns[1..]).value, key, v, 0, 0);
    }
  }

  /** One attribute sighting adds one to the count exactly when both key and value match. */
  lemma AttrStepCounted(d: Directory, k: string, w: Value, key: string, v: Value)
    requires WellFormed(d)
    ensures AttrStep(d, k, w).Ok?
    ensures CountedFrom(d, AttrStep(d, k, w).value, key, v, if k == key && w == v then 1 else 0)
  {
  }

  lemma {:induction false} AttrsCounted(d: Directory, path: string, attrs: seq<(string, Value)>, key: string, v: Value)
    requires WellFormed(d)
    ensures CountedFrom(d, AttrsStep(d, path, attrs).value, key, v, AttrSightings(path, attrs, key, v))
    decreases |attrs|
  {
    if attrs != [] {
      var k, w := path + "/" + attrs[0].0, attrs[0].1;
      var d1 := AttrStep(d, k, w).value;
      AttrStepGrows(d, k, w);
      AttrStepCounted(d, k, w, key, v);
      AttrsCounted(d1, path, attrs[1..], key, v);
      var s1 := if k == key && w == v then 1 else 0;
      assert AttrsStep(d, path, attrs) == AttrsStep(d1, path, attrs[1..]);
      assert AttrSightings(path, attrs, key, v) == s1 + AttrSightings(path, attrs[1..], key, v);
      CountedCompose(d, d1, AttrsStep(d1, path, attrs[1..]).value, key, v, s1, AttrSightings(path, attrs[1..], key, v));
    }
  }

  lemma NodeCounted(d: Directory, node: Node, key: string, v: Value)
    requires WellFormed(d) && NodeStep(d, node).Ok?
    ensures CountedFrom(d, NodeStep(d, node).value, key, v, AttrSightings(NodeKey(node), node.attrs, key, v))
  {
    var path := NodeKey(node);
    var s := AttrSightings(path, node.attrs, key, v);
    if node.kind.Dataset? {
      var d1 := DatasetStep(d, path, node.kind.columns).value;
      DatasetCounted(d, path, node.kind.columns, key, v);
      assert NodeStep(d, node) == AttrsStep(d1, path, node.attrs);
      AttrsCounted(d1, path, node.attrs, key, v);
      CountedCompose(d, d1, AttrsStep(d1, path, node.attrs).value, key, v, 0, s);
    } else {
      assert NodeStep(d, node) == AttrsStep(d, path, node.attrs);
      AttrsCounted(d, path, node.attrs, key, v);
    }
  }

  /** Columns are stored with count 0 and never touch an attribute's count. */
  lemma DatasetCounted(d: Directory, path: string, columns: seq<Column>, key: string, v: Value)
    requires WellFormed(d) && DatasetStep(d, path, columns).Ok?
    ensures WellFormed(DatasetStep(d, path, columns).value) && Grown(d, DatasetStep(d, path, columns).value)
    ensures CountedFrom(d, DatasetStep(d, path, columns).value, key, v, 0)
  {
    if !IsFastqPath(path) {
      ColumnsCounted(d, path, columns, key, v);
    }
  }

  lemma {:induction false} FileCounted(d: Directory, nodes: seq<Node>, key: string, v: Value)
    requires WellFormed(d) && FileStep(d, nodes).Ok?
    ensures CountedFrom(d, FileStep(d, nodes).value, key, v, NodesSightings(nodes, key, v))
    decreases |nodes|
  {
    if nodes != [] {
      var d1 := NodeStep(d, nodes[0]).value;
      NodeCounted(d, nodes[0], key, v);
      assert FileStep(d, nodes) == FileStep(d1, nodes[1..]);
      FileCounted(d1, nodes[1..], key, v);
      CountedCompose(d, d1, FileStep(d1, nodes[1..]).value, key, v,
        AttrSightings(NodeKey(nodes[0]), nodes[0].attrs, key, v), NodesSightings(nodes[1..], key, v));
    }
  }

  lemma {:induction false} DiscoverFromCounted(d: Directory, files: seq<seq<Node>>, key: string, v: Value)
    requires WellFormed(d) && DiscoverFrom(d, files).Ok?
    ensures CountedFrom(d, DiscoverFrom(d, files).value, key, v, FilesSightings(files, key, v))
    decreases |files|
  {
    if files != [] {
      var d1 := FileStep(d, files[0]).value;
      FileCounted(d, files[0], key, v);
      assert DiscoverFrom(d, files) == DiscoverFrom(d1, files[1..]);
      DiscoverFromCounted(d1, files[1..], key, v);
      CountedCompose(d, d1, DiscoverFrom(d1, files[1..]).value, key, v,
        NodesSightings(files[0], key, v), FilesSightings(files[1..], key, v));
    }
  }

  /**
   * After discovery an attribute's count is the number of times, over all
   * files and nodes, that its key was seen with its first value: the number
   * the header loop compares with half the number of files.
   */
  lemma DiscoverCounts(files: seq<seq<Node>>, key: string, v: Value)
    requires Discover(files).Ok?
    requires key in Discover(files).value.entries && Discover(files).value.entries[key].first == FirstValue(v)
    ensures Discover(files).value.entries[key].mark == Count(FilesSightings(files, key, v))
  {
    DiscoverFromCounted(EMPTY, files, key, v);
  }
}
