/**
 * `global_dict_attributes` as the program keeps it: one mutable directory
 * that the discovery pass fills key by key and the header loop then rewrites
 * in place. Each method is proved to leave the directory in the state the
 * corresponding function of module Schema or Header describes.
 */
module Store {
  import opened Common
  import opened Tags
  import opened TypeCodes
  import opened ReadPath
  import opened Nodes
  import opened Schema
  import opened Header

  class SchemaDirectory {
    var keys: seq<string>
    var entries: map<string, Entry>

    /** The directory as a value. */
    function Snapshot(): Directory
      reads this
    {
      Directory(keys, entries)
    }

    ghost predicate Valid()
      reads this
    {
      Schema.Valid(Snapshot())
    }

    constructor ()
      ensures Snapshot() == EMPTY && Valid()
    {
      keys := [];
      entries := map[];
    }

    /** `process_dataset` of the discovery pass; an error stands for the run's exit. */
    method ProcessDataset(path: string, columns: seq<Column>) returns (err: Option<Error>)
      requires Valid()
      modifies this
      ensures DatasetStep(old(Snapshot()), path, columns).Ok? <==> err.None?
      ensures err.None? ==> Valid() && Snapshot() == DatasetStep(old(Snapshot()), path, columns).value
      ensures err.Some? ==> err.value == DatasetStep(old(Snapshot()), path, columns).error
    {
      if IsFastqPath(path) {
        return None;
      }
      var i := 0;
      assert columns[i..] == columns && old(Snapshot()) == Snapshot();
      while i < |columns|
        invariant i <= |columns| && Valid()
        invariant ColumnsStep(old(Snapshot()), path, columns) == ColumnsStep(Snapshot(), path, columns[i..])
      {
        assert columns[i..][1..] == columns[i + 1..];
        var key := path + "/" + columns[i].name;
        var colType := ConvertT(columns[i].typeText);
        if key in entries {
          match entries[key].first {
            case TypeCode(stored) =>
              if !TypesEqual(stored, colType) {
                return Some(ColumnTypeConflict(key, stored, colType));
              }
            case FirstValue(_) =>
              return Some(NotATypeCode(key));
          }
        } else {
          keys := keys + [key];
          entries := entries[key := Entry(TypeCode(colType), Count(0))];
        }
        i := i + 1;
      }
      return None;
    }

    /** The attribute loop of `pre_process_group_attrs` for a node filed under path. */
    method ProcessAttrs(path: string, attrs: seq<(string, Value)>) returns (err: Option<Error>)
      requires Valid()
      modifies this
      ensures AttrsStep(old(Snapshot()), path, attrs).Ok? <==> err.None?
      ensures err.None? ==> Valid() && Snapshot() == AttrsStep(old(Snapshot()), path, attrs).value
      ensures err.Some? ==> err.value == AttrsStep(old(Snapshot()), path, attrs).error
    {
      var i := 0;
      assert attrs[i..] == attrs && old(Snapshot()) == Snapshot();
      while i < |attrs|
        invariant i <= |attrs| && Valid()
        invariant AttrsStep(old(Snapshot()), path, attrs) == AttrsStep(Snapshot(), path, attrs[i..])
      {
        assert attrs[i..][1..] == attrs[i + 1..];
        var (name, val) := attrs[i];
        var fullKey := path + "/" + name;
        ghost var before := Snapshot();
        AttrsStepUnfold(before, path, attrs[i..]);
        if fullKey in entries {
          var pair := entries[fullKey];
          if pair.first == FirstValue(val) {
            match pair.mark {
              case Count(n) =>
                AttrStepRepeat(before, fullKey, val, n);
                entries := entries[fullKey := Entry(pair.first, Count(n + 1))];
              case TagText(_) =>
                return Some(CountNotNumeric(fullKey));
            }
          } else {
            assert AttrStep(before, fullKey, val) == Ok(before);
          }
        } else {
          keys := keys + [fullKey];
          entries := entries[fullKey := Entry(FirstValue(val), Count(1))];
          assert AttrStep(before, fullKey, val) == Ok(Snapshot());
        }
        assert AttrsStep(old(Snapshot()), path, attrs) == AttrsStep(Snapshot(), path, attrs[i + 1..]);
        i := i + 1;
      }
      return None;
    }

    /** `pre_process_group_attrs` for one visited node. */
    method PreProcessGroupAttrs(node: Node) returns (err: Option<Error>)
      requires Valid()
      modifies this
      ensures NodeStep(old(Snapshot()), node).Ok? <==> err.None?
      ensures err.None? ==> Valid() && Snapshot() == NodeStep(old(Snapshot()), node).value
      ensures err.Some? ==> err.value == NodeStep(old(Snapshot()), node).error
    {
      var (nodePath, _) := RemoveReadNumber(node.path);
      if node.kind.Dataset? {
        err := ProcessDataset(nodePath, node.kind.columns);
        if err.Some? {
          return;
        }
      }
      err := ProcessAttrs(nodePath, node.attrs);
    }

    /** `walk_fast5(filename, pre_process_group_attrs)`: the root, then every node below it. */
    method DiscoverFile(nodes: seq<Node>) returns (err: Option<Error>)
      requires Valid()
      modifies this
      ensures FileStep(old(Snapshot()), nodes).Ok? <==> err.None?
      ensures err.None? ==> Valid() && Snapshot() == FileStep(old(Snapshot()), nodes).value
      ensures err.Some? ==> err.value == FileStep(old(Snapshot()), nodes).error
    {
      var i := 0;
      while i < |nodes|
        invariant i <= |nodes| && Valid()
        invariant FileStep(old(Snapshot()), nodes) == FileStep(Snapshot(), nodes[i..])
      {
        assert nodes[i..][1..] == nodes[i + 1..];
        err := PreProcessGroupAttrs(nodes[i]);
        if err.Some? {
          return;
        }
        i := i + 1;
      }
      return None;
    }

    /**
     * The header loop of `write_cram`: every key, in insertion order, gets
     * the next tag and, when its value is shared, a default; its comment line
     * is appended and its count is replaced by the tag text. The run stops
     * when the tag handed out is LAST_TAG.
     */
    method WriteHeader(totalFiles: nat) returns (comments: seq<string>, err: Option<Error>)
      requires WellFormed(Snapshot())
      modifies this
      ensures err.Some? <==> |old(keys)| > MAX_KEYS
      ensures err.Some? ==> err.value == TagSpaceExhausted
      ensures err.None? ==> comments == HeaderComments(old(Snapshot()), totalFiles)
      ensures err.None? ==> Snapshot() == Tagged(old(Snapshot()), totalFiles)
    {
      ghost var d0 := Snapshot();
      var ks, es := keys, entries;
      comments := [];
      var tag := new Tag(FIRST_TAG);
      HeaderBelowStart(d0, totalFiles);
      var i := 0;
      while i < |ks|
        invariant ks == d0.keys && keys == d0.keys && i <= MAX_KEYS
        invariant tag.currentTagNum == FIRST_TAG_NUM + i
        invariant HeaderBelow(d0, totalFiles, i, comments, es)
      {
        var key := ks[i];
        HeaderBelowAt(d0, totalFiles, i, comments, es);
        var val := es[key];
        var stop, head := NextTag(tag, i);
        if stop {
          entries := es;
          return comments, Some(TagSpaceExhausted);
        }
        var tagAndVal, line := DescribeKey(key, val, head, totalFiles);
        HeaderBelowStep(d0, totalFiles, i, comments, es, tagAndVal, line);
        comments := comments + [line];
        es := es[key := Entry(val.first, TagText(tagAndVal))];
        i := i + 1;
      }
      entries := es;
      HeaderBelowEnd(d0, totalFiles, comments, es);
      return comments, None;
    }
  }

  /**
   * The first half of the header loop's body: hand out the next tag and stop
   * the run when it is LAST_TAG.
   */
  method NextTag(tag: Tag, i: nat) returns (stop: bool, head: string)
    requires tag.currentTagNum == FIRST_TAG_NUM + i && i <= MAX_KEYS
    modifies tag
    ensures tag.currentTagNum == old(tag.currentTagNum) + 1
    ensures stop <==> i == MAX_KEYS
    ensures head == "TG:" + TagName(i)
  {
    var name := tag.GetName();
    head := "TG:" + name;
    tag.Increment();
    ExhaustionPoint(i);
    stop := EndsWith(head, LAST_TAG);
  }

  /**
   * The rest of the body: `is_column`, the value and its type, the default
   * when the value is shared, and the comment line.
   */
  method DescribeKey(key: string, val: Entry, head: string, totalFiles: nat) returns (tagAndVal: string, line: string)
    requires val.mark.Count? && (val.first.TypeCode? <==> val.mark.n == 0)
    ensures tagAndVal == head + CvText(Default(key, val, totalFiles))
    ensures line == CommentLine(key, val, tagAndVal)
  {
    var isColumn := val.mark == Count(0);
    EntryFields(val);
    var rendering, hdfType;
    if isColumn {
      rendering, hdfType := "None", val.first.code;
    } else {
      rendering, hdfType := val.first.value.rendering, HdfType(val.first.value.dtype);
    }
    tagAndVal := head;
    if IsSharedValue(val.mark.n, totalFiles) && !Contains(key, "read_number") {
      tagAndVal := tagAndVal + (" CV:" + rendering);
    }
    line := (if isColumn then "COL" else "ATR") + ":'" + key + "':" + hdfType + " " + tagAndVal;
  }

  lemma AttrsStepUnfold(d: Directory, path: string, attrs: seq<(string, Value)>)
    requires Schema.Valid(d) && attrs != []
    ensures AttrStep(d, path + "/" + attrs[0].0, attrs[0].1).Ok? ==>
      AttrsStep(d, path, attrs) == AttrsStep(AttrStep(d, path + "/" + attrs[0].0, attrs[0].1).value, path, attrs[1..])
    ensures AttrStep(d, path + "/" + attrs[0].0, attrs[0].1).Err? ==>
      AttrsStep(d, path, attrs) == AttrStep(d, path + "/" + attrs[0].0, attrs[0].1)
  {
  }

  /**
   * The discovery pass of `run`: every input file walked into one fresh
   * directory, in the order the files are listed.
   */
  method DiscoverAll(files: seq<seq<Node>>) returns (dir: SchemaDirectory, err: Option<Error>)
    ensures fresh(dir)
    ensures Discover(files).Ok? <==> err.None?
    ensures err.None? ==> dir.Valid() && dir.Snapshot() == Discover(files).value
    ensures err.Some? ==> err.value == Discover(files).error
  {
    dir := new SchemaDirectory();
    var i := 0;
    while i < |files|
      invariant i <= |files| && dir.Valid() && WellFormed(dir.Snapshot())
      invariant Discover(files) == DiscoverFrom(dir.Snapshot(), files[i..])
    {
      assert files[i..][1..] == files[i + 1..];
      err := dir.DiscoverFile(files[i]);
      if err.Some? {
        return;
      }
      i := i + 1;
    }
    return dir, None;
  }
}
