/**
 * Shared vocabulary of the ont2cram model: the failure-carrying datatypes
 * that stand for the converter's fatal exits, and the few Python string
 * operations (startswith, endswith, `in`, find, slicing, splitlines) that the
 * other modules are written in terms of.
 */
module Common {

  datatype Option<+T> = None | Some(value: T)

  datatype Result<+T> = Ok(value: T) | Err(error: Error)

  /**
   * Every way the converter stops. None of them is recovered from: in the
   * program each one is a `sys.exit`, a failed `assert` or an uncaught
   * exception that ends the run.
   */
  datatype Error =
    | ColumnTypeConflict(key: string, stored: string, seen: string)  // process_dataset's "different types" exit
    | NotATypeCode(key: string)        // a column sighting whose key already holds an attribute value
    | CountNotNumeric(key: string)     // `pair[1] += 1` on an entry whose count was replaced by tag text
    | TagSpaceExhausted                // the header loop reached LAST_TAG
    | UnknownType(code: string)        // get_tag_type's exit
    | MissingKey(key: string)          // KeyError in get_tag_name_cv
    | NoTagAssigned(key: string)       // get_tag_name_cv's `assert pair[1].startswith("TG:")`
    | InvalidFastq(lineCount: nat)     // read_fastq_from_file's 4-line exit
    | MissingFastqLine(lineCount: nat) // IndexError when fewer than four FASTQ lines reach the record
    | FastqNotDataset(path: string)    // `.value` on a group whose name looks like a FASTQ path
    | EmptyFile                        // `next(iter(fast5))` on a file with no top-level node
    | EmptyColumn(key: string)         // `col_values[0]` on a column without rows
    | MixedColumn(key: string)         // `b''.join` over rows that are not all bytes

  predicate StartsWith(s: string, p: string) {
    |p| <= |s| && s[..|p|] == p
  }

  predicate EndsWith(s: string, p: string) {
    |p| <= |s| && s[|s| - |p|..] == p
  }

  /** p occurs in s starting at index i. */
  predicate OccursAt(s: string, p: string, i: int) {
    0 <= i <= |s| - |p| && s[i..i + |p|] == p
  }

  /** `p in s` for strings: p occurs as a contiguous piece of s. */
  predicate Contains(s: string, p: string) {
    exists i :: 0 <= i <= |s| - |p| && OccursAt(s, p, i)
  }

  /** Cutting a string at two points and gluing the pieces back gives the string. */
  lemma CutTwice(s: string, p: nat, e: nat)
    requires p <= e <= |s|
    ensures s[..p] + s[p..e] + s[e..] == s
  {
    assert s[..p] + s[p..e] == s[..e];
    assert s[..e] + s[e..] == s;
  }

  /** Python's `s[i:j]` for 0 <= i, j: the bounds are clamped to the string. */
  function Slice(s: string, i: nat, j: nat): (r: string)
    ensures |r| <= |s|
    ensures i <= j <= |s| ==> r == s[i..j]
  {
    var hi := if j <= |s| then j else |s|;
    var lo := if i <= hi then i else hi;
    s[lo..hi]
  }

  /** Python's `s.find(p)` from position k on: the first occurrence at or after k, -1 when there is none. */
  function FindFrom(s: string, p: string, k: nat): (r: int)
    requires k <= |s|
    ensures r == -1 || (k <= r && OccursAt(s, p, r))
    ensures r == -1 ==> forall i :: k <= i ==> !OccursAt(s, p, i)
    ensures r != -1 ==> forall i :: k <= i < r ==> !OccursAt(s, p, i)
    decreases |s| - k
  {
    if |s| - k < |p| then -1
    else if s[k..k + |p|] == p then k
    else if k == |s| then -1
    else FindFrom(s, p, k + 1)
  }

  function Find(s: string, p: string): (r: int)
    ensures r == -1 <==> !Contains(s, p)
    ensures r != -1 ==> OccursAt(s, p, r)
    ensures r != -1 ==> forall i :: 0 <= i < r ==> !OccursAt(s, p, i)
  {
    FindFrom(s, p, 0)
  }

  /** The characters `str.splitlines` breaks at. */
  predicate IsLineBreak(c: char) {
    c == '\n' || c == '\r' || c == '\U{0B}' || c == '\U{0C}' || c == '\U{1C}' || c == '\U{1D}'
    || c == '\U{1E}' || c == '\U{85}' || c == '\U{2028}' || c == '\U{2029}'
  }

  predicate NoLineBreak(s: string) {
    forall i :: 0 <= i < |s| ==> !IsLineBreak(s[i])
  }

  /** Index of the first line break in s, |s| when there is none. */
  function FirstBreak(s: string): (i: nat)
    ensures i <= |s| && NoLineBreak(s[..i])
    ensures i < |s| ==> IsLineBreak(s[i])
  {
    if s == [] || IsLineBreak(s[0]) then 0
    else
      var j := FirstBreak(s[1..]);
      assert s[..j + 1] == [s[0]] + s[1..][..j];
      j + 1
  }

  /**
   * Python's `str.splitlines()`: the text between line breaks, where "\r\n"
   * is one break and a break at the very end does not open an empty line.
   */
  function SplitLines(s: string): (lines: seq<string>)
    ensures forall k :: 0 <= k < |lines| ==> NoLineBreak(lines[k])
    decreases |s|
  {
    if s == [] then []
    else
      var i := FirstBreak(s);
      if i == |s| then [s]
      else
        var skip := if s[i] == '\r' && i + 1 < |s| && s[i + 1] == '\n' then 2 else 1;
        [s[..i]] + SplitLines(s[i + skip..])
  }

  /** The text of a file that holds these lines, each ended by "\n". */
  function JoinLines(lines: seq<string>): string {
    if lines == [] then [] else lines[0] + "\n" + JoinLines(lines[1..])
  }

  /** Splitting the text of a file written line by line gives back its lines. */
  lemma {:induction false} SplitJoinLines(lines: seq<string>)
    requires forall k :: 0 <= k < |lines| ==> NoLineBreak(lines[k])
    ensures SplitLines(JoinLines(lines)) == lines
  {
    if lines != [] {
      var s := JoinLines(lines);
      var l := lines[0];
      assert s == l + ("\n" + JoinLines(lines[1..]));
      FirstBreakAt(l, "\n" + JoinLines(lines[1..]));
      assert s[..|l|] == l;
      assert s[|l| + 1..] == JoinLines(lines[1..]);
      SplitJoinLines(lines[1..]);
    }
  }

  lemma FirstBreakAt(l: string, rest: string)
    requires NoLineBreak(l) && rest != [] && rest[0] == '\n'
    ensures FirstBreak(l + rest) == |l|
    decreases |l|
  {
    if l != [] {
      assert (l + rest)[1..] == l[1..] + rest;
      FirstBreakAt(l[1..], rest);
    }
  }
}
