/**
 * The consensus step between the two passes: which stored values become
 * per-key defaults, the "TG:xx[ CV:repr]" text that records a key's tag and
 * default, the "COL"/"ATR" comment line the header carries for each key, and
 * `get_tag_name_cv`, which reads the tag text back during encoding.
 */
module Header {
  import opened Common
  import opened Tags
  import opened TypeCodes
  import opened Nodes
  import opened Schema

  const FIRST_TAG_NUM: nat := 620
  const LAST_TAG_NUM: nat := 2231

  /** How many keys get a tag before the allocator reaches LAST_TAG. */
  const MAX_KEYS: nat := LAST_TAG_NUM - FIRST_TAG_NUM

  /** `is_shared_value`: seen with the first value more often than half the number of input files. */
  predicate IsSharedValue(count: int, totalFiles: nat)
    ensures IsSharedValue(count, totalFiles) <==> 2 * count > totalFiles
  {
    count > totalFiles / 2
  }

  /** The tag the header loop hands to the key at position i of the directory. */
  function TagName(i: nat): string {
    Base62(FIRST_TAG_NUM + i)
  }

  /** `val[1] == 0`: how the header loop tells a column from an attribute. */
  predicate IsColumn(e: Entry) {
    e.mark == Count(0)
  }

  /** `repr(value)` of the header loop: None for a column, the first value's rendering for an attribute. */
  function Rendering(e: Entry): string {
    match e.first
    case TypeCode(_) => "None"
    case FirstValue(v) => v.rendering
  }

  /** The type written in the comment line: the stored code of a column, the converted dtype of an attribute. */
  function HdfTypeOf(e: Entry): string {
    match e.first
    case TypeCode(code) => code
    case FirstValue(v) => HdfType(v.dtype)
  }

  /** The default recorded for a key: its first value, when it is shared and the key is not a read number. */
  function Default(key: string, e: Entry, totalFiles: nat): Option<string> {
    if e.mark.Count? && IsSharedValue(e.mark.n, totalFiles) && !Contains(key, "read_number")
    then Some(Rendering(e)) else None
  }

  /** The " CV:repr" part of a tag text, empty without a default. */
  function CvText(default: Option<string>): string {
    match default
    case Some(r) => " CV:" + r
    case None => ""
  }

  /** The `tag_and_val` text of the key at position i. */
  function TagAndVal(i: nat, key: string, e: Entry, totalFiles: nat): string {
    "TG:" + TagName(i) + CvText(Default(key, e, totalFiles))
  }

  /** The header comment for one key. */
  function CommentLine(key: string, e: Entry, tagAndVal: string): string {
    (if IsColumn(e) then "COL" else "ATR") + ":'" + key + "':" + HdfTypeOf(e) + " " + tagAndVal
  }

  /** Python's `text[3:5]` and `text.find("CV:")` as `get_tag_name_cv` uses them. */
  function ParseTagText(text: string): (r: (string, Option<string>))
    ensures 5 <= |text| ==> r.0 == text[3..5]
    ensures r.1.Some? <==> Contains(text, "CV:")
    ensures r.1.Some? ==>
      exists p :: OccursAt(text, "CV:", p) && r.1.value == text[p + 3..] && (forall i :: 0 <= i < p ==> !OccursAt(text, "CV:", i))
  {
    var pos := Find(text, "CV:");
    (Slice(text, 3, 5), if pos == -1 then None else Some(text[pos + 3..]))
  }

  /**
   * `get_tag_name_cv`: look a key up in the tagged directory and split its
   * tag text into the tag name and the default. A missing key is a KeyError;
   * an entry without tag text fails the assertion.
   */
  function GetTagNameCv(d: Directory, key: string): (r: Result<(string, Option<string>)>)
    ensures r.Err? <==> key !in d.entries || !(d.entries[key].mark.TagText? && StartsWith(d.entries[key].mark.text, "TG:"))
    ensures r.Err? && key !in d.entries ==> r.error == MissingKey(key)
    ensures r.Err? && key in d.entries ==> r.error == NoTagAssigned(key)
  {
    if key !in d.entries then Err(MissingKey(key))
    else match d.entries[key].mark
      case Count(_) => Err(NoTagAssigned(key))
      case TagText(text) => if StartsWith(text, "TG:") then Ok(ParseTagText(text)) else Err(NoTagAssigned(key))
  }

  /** Reading back what the header loop wrote gives the tag and the default it recorded. */
  lemma {:induction false} TagTextRoundTrip(name: string, default: Option<string>)
    requires |name| == 2
    ensures ParseTagText("TG:" + name + CvText(default)) == (name, default)
  {
    var head := "TG:" + name;
    assert forall i :: 0 <= i <= 2 ==> head[i] != 'C';
    match default {
      case None =>
        assert Slice(head, 3, 5) == name;
        forall i | 0 <= i <= |head| - 3 ensures !OccursAt(head, "CV:", i) {
          assert head[i] != 'C';
        }
        assert head + "" == head;
      case Some(r) =>
        var text := head + " CV:" + r;
        assert text[3..5] == name;
        assert OccursAt(text, "CV:", 6);
        assert text[5] == ' ';
        forall i | 0 <= i < 6 ensures !OccursAt(text, "CV:", i) {
          var w := text[i..i + 3];
          if i <= 2 { assert w[0] == head[i]; }
          else if i == 3 { assert w[2] == text[5]; }
          else if i == 4 { assert w[1] == text[5]; }
          else { assert w[0] == text[5]; }
        }
        var pos := Find(text, "CV:");
        assert pos == 6;
        assert text[9..] == r;
        assert ParseTagText(text) == (name, Some(r));
        assert "TG:" + name + (" CV:" + r) == text;
    }
  }

  /**
   * A default is attached exactly when the count exceeds half the number of
   * files and the key does not mention "read_number"; a column, counted 0,
   * never has one.
   */
  lemma DefaultAttachedIff(i: nat, key: string, e: Entry, totalFiles: nat)
    requires i <= MAX_KEYS && e.mark.Count?
    ensures ParseTagText(TagAndVal(i, key, e, totalFiles)).1.Some? <==>
      e.mark.n > totalFiles / 2 && !Contains(key, "read_number")
    ensures IsColumn(e) ==> ParseTagText(TagAndVal(i, key, e, totalFiles)).1 == None
    ensures ParseTagText(TagAndVal(i, key, e, totalFiles)).1.Some? ==>
      ParseTagText(TagAndVal(i, key, e, totalFiles)).1.value == Rendering(e)
  {
    TagNameShape(i);
    TagTextRoundTrip(TagName(i), Default(key, e, totalFiles));
  }

  /** Every tag handed out before the allocator stops is two digits long. */
  lemma TagNameShape(i: nat)
    requires i <= MAX_KEYS
    ensures |TagName(i)| == 2 && AllDigits(TagName(i))
    ensures TagToInt(TagName(i)) == Some(FIRST_TAG_NUM + i)
  {
    TagRoundTrip(FIRST_TAG_NUM + i);
    Base62RoundTrip(FIRST_TAG_NUM + i);
  }

  /** The first key gets FIRST_TAG, and the run stops exactly when the tag handed out is LAST_TAG. */
  lemma {:induction false} ExhaustionPoint(i: nat)
    requires i <= MAX_KEYS
    ensures TagName(0) == FIRST_TAG
    ensures EndsWith("TG:" + TagName(i), LAST_TAG) <==> i == MAX_KEYS
  {
    NamedTagNumbers();
    TagRoundTripBack(FIRST_TAG);
    TagRoundTripBack(LAST_TAG);
    TagNameShape(i);
    var text := "TG:" + TagName(i);
    assert text[|text| - 2..] == TagName(i);
  }

  /** Tags grow with the position, so no two keys share one. */
  lemma TagsIncreasing(i: nat, j: nat)
    requires i < j <= MAX_KEYS
    ensures TagToInt(TagName(i)).Some? && TagToInt(TagName(j)).Some?
    ensures TagToInt(TagName(i)).value < TagToInt(TagName(j)).value
    ensures TagName(i) != TagName(j)
  {
    TagNameShape(i);
    TagNameShape(j);
  }

  /** No key's tag is one of the two tags every record carries for its read number and file name. */
  lemma ReservedTagsFree(i: nat)
    requires i < MAX_KEYS
    ensures TagName(i) != READ_NUM_TAG && TagName(i) != FILENAME_TAG
  {
    TagNameShape(i);
    NamedTagNumbers();
  }

  /** The position of a key in the key order. */
  function IndexOf(keys: seq<string>, k: string): (i: nat)
    requires k in keys
    ensures i < |keys| && keys[i] == k
    ensures forall j :: 0 <= j < i ==> keys[j] != k
  {
    if keys[0] == k then 0 else 1 + IndexOf(keys[1..], k)
  }

  lemma IndexOfDistinct(keys: seq<string>, i: nat)
    requires Distinct(keys) && i < |keys|
    ensures IndexOf(keys, keys[i]) == i
  {
  }

  /** The entry the header loop leaves for the key at position i: its first slot, then its tag text. */
  function TaggedEntry(d: Directory, totalFiles: nat, i: nat): Entry
    requires Valid(d) && i < |d.keys|
  {
    var key := d.keys[i];
    Entry(d.entries[key].first, TagText(TagAndVal(i, key, d.entries[key], totalFiles)))
  }

  /** The directory the encoding pass reads: every key tagged, in the same order. */
  function Tagged(d: Directory, totalFiles: nat): (r: Directory)
    requires Valid(d)
    ensures r.keys == d.keys && r.entries.Keys == d.entries.Keys
    ensures forall i :: 0 <= i < |d.keys| ==> r.entries[d.keys[i]] == TaggedEntry(d, totalFiles, i)
  {
    IndexOfAll(d.keys);
    Directory(d.keys, map k | k in d.entries :: TaggedEntry(d, totalFiles, IndexOf(d.keys, k)))
  }

  /** Every entry keeps its first slot and now holds a "TG:" text in place of its count. */
  lemma TaggedShape(d: Directory, totalFiles: nat)
    requires Valid(d)
    ensures forall k :: k in Tagged(d, totalFiles).entries ==>
      Tagged(d, totalFiles).entries[k].first == d.entries[k].first &&
      Tagged(d, totalFiles).entries[k].mark.TagText? && StartsWith(Tagged(d, totalFiles).entries[k].mark.text, "TG:")
  {
    forall k | k in Tagged(d, totalFiles).entries
      ensures Tagged(d, totalFiles).entries[k].first == d.entries[k].first
      ensures StartsWith(Tagged(d, totalFiles).entries[k].mark.text, "TG:")
    {
      var i := IndexOf(d.keys, k);
      TagAndValStarts(i, k, d.entries[k], totalFiles);
    }
  }

  lemma TagAndValStarts(i: nat, key: string, e: Entry, totalFiles: nat)
    ensures StartsWith(TagAndVal(i, key, e, totalFiles), "TG:")
  {
    var head := "TG:" + TagName(i);
    assert head[..3] == "TG:";
    assert (head + CvText(Default(key, e, totalFiles)))[..3] == head[..3];
  }

  lemma IndexOfAll(keys: seq<string>)
    requires Distinct(keys)
    ensures forall i :: 0 <= i < |keys| ==> IndexOf(keys, keys[i]) == i
  {
    forall i | 0 <= i < |keys| {
      IndexOfDistinct(keys, i);
    }
  }

  /**
   * The header loop after i keys: cs holds their comment lines, es holds
   * their tagged entries and the discovered entries of the keys after them.
   */
  ghost predicate HeaderBelow(d: Directory, totalFiles: nat, i: nat, cs: seq<string>, es: map<string, Entry>) {
    WellFormed(d) && i <= |d.keys| && |cs| == i && es.Keys == d.entries.Keys &&
    (forall j :: 0 <= j < i ==> cs[j] == CommentAt(d, totalFiles, j)) &&
    forall j :: 0 <= j < |d.keys| ==>
      es[d.keys[j]] == if j < i then TaggedEntry(d, totalFiles, j) else d.entries[d.keys[j]]
  }

  lemma HeaderBelowStart(d: Directory, totalFiles: nat)
    requires WellFormed(d)
    ensures HeaderBelow(d, totalFiles, 0, [], d.entries)
  {
  }

  /** What the loop finds for the key at position i: its discovered entry. */
  lemma HeaderBelowAt(d: Directory, totalFiles: nat, i: nat, cs: seq<string>, es: map<string, Entry>)
    requires HeaderBelow(d, totalFiles, i, cs, es) && i < |d.keys|
    ensures d.keys[i] in es && es[d.keys[i]] == d.entries[d.keys[i]]
    ensures es[d.keys[i]].mark.Count? && (es[d.keys[i]].first.TypeCode? <==> es[d.keys[i]].mark.n == 0)
  {
  }

  /** Appending the key's line and writing its tag text moves the loop on by one key. */
  lemma HeaderBelowStep(d: Directory, totalFiles: nat, i: nat, cs: seq<string>, es: map<string, Entry>, tagAndVal: string, line: string)
    requires HeaderBelow(d, totalFiles, i, cs, es) && i < |d.keys|
    requires tagAndVal == TagAndVal(i, d.keys[i], d.entries[d.keys[i]], totalFiles)
    requires line == CommentLine(d.keys[i], d.entries[d.keys[i]], tagAndVal)
    ensures HeaderBelow(d, totalFiles, i + 1, cs + [line], es[d.keys[i] := Entry(d.entries[d.keys[i]].first, TagText(tagAndVal))])
  {
    var cs2 := cs + [line];
    forall j | 0 <= j < i + 1 ensures cs2[j] == CommentAt(d, totalFiles, j) {
      if j < i {
        assert cs2[j] == cs[j];
      }
    }
    var es2 := es[d.keys[i] := TaggedEntry(d, totalFiles, i)];
    forall j | 0 <= j < |d.keys|
      ensures es2[d.keys[j]] == if j < i + 1 then TaggedEntry(d, totalFiles, j) else d.entries[d.keys[j]]
    {
      if j != i {
        assert d.keys[j] != d.keys[i];
      }
    }
  }

  /** Once every key is done, the lines are the header's and the entries the tagged directory's. */
  lemma HeaderBelowEnd(d: Directory, totalFiles: nat, cs: seq<string>, es: map<string, Entry>)
    requires HeaderBelow(d, totalFiles, |d.keys|, cs, es)
    ensures cs == HeaderComments(d, totalFiles)
    ensures Tagged(d, totalFiles) == Directory(d.keys, es)
  {
    TaggedAll(d, totalFiles, es);
  }

  lemma TaggedAll(d: Directory, totalFiles: nat, es: map<string, Entry>)
    requires Valid(d) && es.Keys == d.entries.Keys
    requires forall j :: 0 <= j < |d.keys| ==> es[d.keys[j]] == TaggedEntry(d, totalFiles, j)
    ensures Tagged(d, totalFiles).entries == es
  {
    TaggedKeys(d, totalFiles);
    forall k | k in es ensures es[k] == Tagged(d, totalFiles).entries[k] {
      TaggedAt(d, totalFiles, k);
    }
  }

  lemma TaggedKeys(d: Directory, totalFiles: nat)
    requires Valid(d)
    ensures Tagged(d, totalFiles).entries.Keys == d.entries.Keys
  {
  }

  lemma TaggedAt(d: Directory, totalFiles: nat, k: string)
    requires Valid(d) && k in d.entries
    ensures k in d.keys && Tagged(d, totalFiles).entries[k] == TaggedEntry(d, totalFiles, IndexOf(d.keys, k))
  {
  }

  /** The comment line of the key at position i. */
  function CommentAt(d: Directory, totalFiles: nat, i: nat): string
    requires Valid(d) && i < |d.keys|
  {
    var key := d.keys[i];
    CommentLine(key, d.entries[key], TagAndVal(i, key, d.entries[key], totalFiles))
  }

  /** The comment lines of the header, one per key in key order. */
  function HeaderComments(d: Directory, totalFiles: nat): (r: seq<string>)
    requires Valid(d)
    ensures |r| == |d.keys| && forall i :: 0 <= i < |d.keys| ==> r[i] == CommentAt(d, totalFiles, i)
  {
    seq(|d.keys|, i requires 0 <= i < |d.keys| => CommentAt(d, totalFiles, i))
  }

  /** What the header loop reads off a discovered entry: the column flag, `repr(value)` and the type. */
  lemma EntryFields(e: Entry)
    requires e.mark.Count? && (e.first.TypeCode? <==> e.mark.n == 0)
    ensures IsColumn(e) ==> e.first.TypeCode? && Rendering(e) == "None" && HdfTypeOf(e) == e.first.code
    ensures !IsColumn(e) ==> e.first.FirstValue? && Rendering(e) == e.first.value.rendering && HdfTypeOf(e) == HdfType(e.first.value.dtype)
  {
  }

  /**
   * After the header, looking a key up gives the tag of its position and the
   * default the consensus rule chose for it; a key discovery never saw is
   * missing.
   */
  lemma LookupAfterHeader(d: Directory, totalFiles: nat, i: nat)
    requires WellFormed(d) && |d.keys| <= MAX_KEYS && i < |d.keys|
    ensures GetTagNameCv(Tagged(d, totalFiles), d.keys[i]) ==
      Ok((TagName(i), Default(d.keys[i], d.entries[d.keys[i]], totalFiles)))
  {
    var key := d.keys[i];
    IndexOfDistinct(d.keys, i);
    TagNameShape(i);
    var text := TagAndVal(i, key, d.entries[key], totalFiles);
    assert Tagged(d, totalFiles).entries[key] == Entry(d.entries[key].first, TagText(text));
    assert StartsWith(text, "TG:");
    TagTextRoundTrip(TagName(i), Default(key, d.entries[key], totalFiles));
  }

  /** Different keys read back different tags, none of them reserved. */
  lemma TagsOfKeysDistinct(d: Directory, totalFiles: nat, i: nat, j: nat)
    requires WellFormed(d) && |d.keys| <= MAX_KEYS && i < j < |d.keys|
    ensures GetTagNameCv(Tagged(d, totalFiles), d.keys[i]).Ok? && GetTagNameCv(Tagged(d, totalFiles), d.keys[j]).Ok?
    ensures GetTagNameCv(Tagged(d, totalFiles), d.keys[i]).value.0 != GetTagNameCv(Tagged(d, totalFiles), d.keys[j]).value.0
    ensures GetTagNameCv(Tagged(d, totalFiles), d.keys[i]).value.0 !in {READ_NUM_TAG, FILENAME_TAG}
  {
    LookupAfterHeader(d, totalFiles, i);
    LookupAfterHeader(d, totalFiles, j);
    TagsIncreasing(i, j);
    ReservedTagsFree(i);
  }
}
