/**
 * `remove_read_number`: turning a node path into its schema key by replacing
 * the read identifier after the last `/read_` (any letter case) with "XXX".
 *
 * The program uses the regular expression
 *   (^.*\/read_)({?\w{8}-?\w{4}-?\w{4}-?\w{4}-?\w{12}}?|\d+)(.*$)
 * with re.match and re.I. Here it is an explicit scan: the identifier
 * grammar is stated declaratively (Matches, IsDecimalId), the scan
 * (GreedyEnd, IdEnd, LastMatch) is proved sound and complete against it, and
 * the regex's reading of newlines is kept: `.` does not cross a "\n", and `$`
 * also matches just before a final "\n", which therefore falls outside the
 * match and is dropped from the key.
 */
module ReadPath {
  import opened Common

  const MARKER: string := "/read_"
  const PLACEHOLDER: string := "XXX"

  /** ASCII lower-casing; the letters of MARKER have no other upper-case forms. */
  function Lower(c: char): char {
    if 'A' <= c <= 'Z' then (c as int - 'A' as int + 'a' as int) as char else c
  }

  function LowerStr(s: string): (r: string)
    ensures |r| == |s| && forall i :: 0 <= i < |s| ==> r[i] == Lower(s[i])
  {
    seq(|s|, i requires 0 <= i < |s| => Lower(s[i]))
  }

  /** A MARKER, in any letter case, ends at index p of s. */
  predicate MarkerEndsAt(s: string, p: int) {
    6 <= p <= |s| && LowerStr(s[p - 6..p]) == MARKER
  }

  /** `\w` and `\d`, over ASCII. */
  predicate IsWordChar(c: char) {
    ('a' <= c <= 'z') || ('A' <= c <= 'Z') || ('0' <= c <= '9') || c == '_'
  }

  predicate IsDecimalChar(c: char) {
    '0' <= c <= '9'
  }

  predicate AllWord(s: string) {
    forall i :: 0 <= i < |s| ==> IsWordChar(s[i])
  }

  predicate NoNewline(s: string) {
    forall i :: 0 <= i < |s| ==> s[i] != '\n'
  }

  /** The second alternative, `\d+`. */
  predicate IsDecimalId(id: string) {
    |id| > 0 && forall i :: 0 <= i < |id| ==> IsDecimalChar(id[i])
  }

  /** The pieces of the first alternative: an optional character `c?`, or `\w{n}`. */
  datatype Piece = Optional(c: char) | WordRun(n: nat)

  /** `{?\w{8}-?\w{4}-?\w{4}-?\w{4}-?\w{12}}?` */
  const UUID_PATTERN: seq<Piece> := [Optional('{'), WordRun(8), Optional('-'), WordRun(4), Optional('-'),
    WordRun(4), Optional('-'), WordRun(4), Optional('-'), WordRun(12), Optional('}')]

  /** s is, in its entirety, one of the strings the pieces describe. */
  predicate Matches(s: string, pattern: seq<Piece>)
    decreases |pattern|
  {
    if pattern == [] then s == []
    else match pattern[0]
      case Optional(c) => (|s| > 0 && s[0] == c && Matches(s[1..], pattern[1..])) || Matches(s, pattern[1..])
      case WordRun(n) => n <= |s| && AllWord(s[..n]) && Matches(s[n..], pattern[1..])
  }

  /** One of the strings the regex accepts as a read identifier. */
  predicate IsReadId(id: string) {
    Matches(id, UUID_PATTERN) || IsDecimalId(id)
  }

  /**
   * Patterns a greedy scan matches without backtracking: every optional
   * character is not a word character and is the last piece or sits before a
   * non-empty word run.
   */
  predicate GreedySafe(pattern: seq<Piece>) {
    forall k :: 0 <= k < |pattern| ==> SafeAt(pattern, k)
  }

  predicate SafeAt(pattern: seq<Piece>, k: nat)
    requires k < |pattern|
  {
    pattern[k].Optional? ==>
      !IsWordChar(pattern[k].c) && (k + 1 == |pattern| || (pattern[k + 1].WordRun? && pattern[k + 1].n > 0))
  }

  /** Where the first alternative ends when it starts at q: optional characters taken when present. */
  function GreedyEnd(s: string, q: nat, pattern: seq<Piece>): (r: Option<nat>)
    requires q <= |s|
    ensures r.Some? ==> q <= r.value <= |s| && Matches(s[q..r.value], pattern)
    decreases |pattern|
  {
    if pattern == [] then Some(q)
    else match pattern[0]
      case Optional(c) =>
        if q < |s| && s[q] == c then
          var r := GreedyEnd(s, q + 1, pattern[1..]);
          assert r.Some? ==> s[q..r.value][1..] == s[q + 1..r.value];
          r
        else GreedyEnd(s, q, pattern[1..])
      case WordRun(n) =>
        if q + n <= |s| && AllWord(s[q..q + n]) then
          var r := GreedyEnd(s, q + n, pattern[1..]);
          assert r.Some? ==> s[q..r.value][..n] == s[q..q + n] && s[q..r.value][n..] == s[q + n..r.value];
          r
        else None
  }

  /**
   * The greedy scan misses no match and finds the longest one: if any text
   * starting at q fits the pattern, the scan ends at or after that text's end.
   */
  lemma {:induction false} GreedyEndComplete(s: string, q: nat, e: nat, pattern: seq<Piece>)
    requires q <= e <= |s| && GreedySafe(pattern) && Matches(s[q..e], pattern)
    ensures GreedyEnd(s, q, pattern).Some? && e <= GreedyEnd(s, q, pattern).value
    decreases |pattern|
  {
    if pattern != [] {
      var rest := pattern[1..];
      assert GreedySafe(rest) by {
        forall k | 0 <= k < |rest| ensures SafeAt(rest, k) {
          assert SafeAt(pattern, k + 1);
        }
      }
      match pattern[0]
      case Optional(c) =>
        if |s[q..e]| > 0 && s[q..e][0] == c && Matches(s[q..e][1..], rest) {
          assert s[q..e][1..] == s[q + 1..e];
          GreedyEndComplete(s, q + 1, e, rest);
        } else {
          assert Matches(s[q..e], rest);
          if q < |s| && s[q] == c {
            // The match skipped a c that is present: then nothing follows in the pattern.
            assert SafeAt(pattern, 0);
            if rest != [] {
              assert false;
            }
          } else {
            GreedyEndComplete(s, q, e, rest);
          }
        }
      case WordRun(n) =>
        assert s[q..e][..n] == s[q..q + n] && s[q..e][n..] == s[q + n..e];
        GreedyEndComplete(s, q + n, e, rest);
    }
  }

  lemma UuidPatternGreedySafe()
    ensures GreedySafe(UUID_PATTERN)
  {
  }

  /** Where `\d+` ends when it starts at q: after the longest run of digits. */
  function DigitRunEnd(s: string, q: nat): (e: nat)
    requires q <= |s|
    ensures q <= e <= |s|
    ensures forall i :: q <= i < e ==> IsDecimalChar(s[i])
    ensures e < |s| ==> !IsDecimalChar(s[e])
    decreases |s| - q
  {
    if q < |s| && IsDecimalChar(s[q]) then DigitRunEnd(s, q + 1) else q
  }

  /** Every UUID-shaped text starting at q ends at or before where the scan ends. */
  lemma UuidLongest(s: string, q: nat)
    requires q <= |s|
    ensures forall g :: q <= g <= |s| && Matches(s[q..g], UUID_PATTERN) ==>
      GreedyEnd(s, q, UUID_PATTERN).Some? && g <= GreedyEnd(s, q, UUID_PATTERN).value
  {
    UuidPatternGreedySafe();
    forall g | q <= g <= |s| && Matches(s[q..g], UUID_PATTERN)
      ensures GreedyEnd(s, q, UUID_PATTERN).Some? && g <= GreedyEnd(s, q, UUID_PATTERN).value
    {
      GreedyEndComplete(s, q, g, UUID_PATTERN);
    }
  }

  /** Where group 2 ends when it starts at q: the first alternative if it applies, else the digit run. */
  function IdEnd(s: string, q: nat): (r: Option<nat>)
    requires q <= |s|
    ensures r.Some? ==> q < r.value <= |s|
  {
    var uuid := GreedyEnd(s, q, UUID_PATTERN);
    if uuid.Some? then
      UuidNonEmpty(s[q..uuid.value]);
      uuid
    else
      var e := DigitRunEnd(s, q);
      if e > q then Some(e) else None
  }

  /** A UUID-shaped text is not empty: its first word run has eight characters. */
  lemma UuidNonEmpty(t: string)
    requires Matches(t, UUID_PATTERN)
    ensures |t| > 0
  {
    var rest := UUID_PATTERN[1..];
    assert rest[0] == WordRun(8);
    if !(|t| > 0 && t[0] == '{' && Matches(t[1..], rest)) {
      assert Matches(t, rest);
    }
  }

  /** What IdEnd finds is an identifier. */
  lemma IdEndSound(s: string, q: nat)
    requires q <= |s| && IdEnd(s, q).Some?
    ensures IsReadId(s[q..IdEnd(s, q).value])
  {
    var e := DigitRunEnd(s, q);
    if GreedyEnd(s, q, UUID_PATTERN).None? {
      assert IsDecimalId(s[q..e]);
    }
  }

  /**
   * Which identifier IdEnd takes at q, as the regex does. The first
   * alternative is tried first, and it takes the longest UUID-shaped text;
   * only when no such text starts at q does `\d+` apply, and then it takes the
   * whole run of digits.
   */
  lemma IdEndChoice(s: string, q: nat)
    requires q <= |s|
    ensures forall g :: q <= g <= |s| && Matches(s[q..g], UUID_PATTERN) ==>
      IdEnd(s, q).Some? && g <= IdEnd(s, q).value && Matches(s[q..IdEnd(s, q).value], UUID_PATTERN)
    ensures (forall g :: q <= g <= |s| ==> !Matches(s[q..g], UUID_PATTERN)) ==>
      (IdEnd(s, q).Some? <==> q < |s| && IsDecimalChar(s[q]))
    ensures (forall g :: q <= g <= |s| ==> !Matches(s[q..g], UUID_PATTERN)) && IdEnd(s, q).Some? ==>
      IsDecimalId(s[q..IdEnd(s, q).value]) && (IdEnd(s, q).value < |s| ==> !IsDecimalChar(s[IdEnd(s, q).value]))
  {
    UuidLongest(s, q);
  }

  function WordTotal(pattern: seq<Piece>): nat {
    if pattern == [] then 0 else (if pattern[0].WordRun? then pattern[0].n else 0) + WordTotal(pattern[1..])
  }

  /** An identifier of either kind starting at q is found by IdEnd. */
  lemma IdEndComplete(s: string, q: nat, e: nat)
    requires q <= e <= |s| && IsReadId(s[q..e])
    ensures IdEnd(s, q).Some?
  {
    if Matches(s[q..e], UUID_PATTERN) {
      UuidPatternGreedySafe();
      GreedyEndComplete(s, q, e, UUID_PATTERN);
    } else {
      assert IsDecimalChar(s[q..e][0]);
    }
  }

  /** Group 1 can end at p: a MARKER ends there and an identifier follows. */
  predicate MatchAt(s: string, p: nat) {
    p <= |s| && MarkerEndsAt(s, p) && IdEnd(s, p).Some?
  }

  /**
   * The greedy `^.*` of group 1: the largest p <= k at which the rest of the
   * pattern matches, with the end of the identifier found there.
   */
  function LastMatch(s: string, k: nat): (r: Option<(nat, nat)>)
    requires k <= |s|
    ensures r.Some? ==> r.value.0 <= k && MatchAt(s, r.value.0) && IdEnd(s, r.value.0) == Some(r.value.1)
    ensures r.Some? ==> forall p :: r.value.0 < p <= k ==> !MatchAt(s, p)
    ensures r.None? ==> forall p :: 0 <= p <= k ==> !MatchAt(s, p)
    decreases k
  {
    if k < |MARKER| then None
    else if MarkerEndsAt(s, k) && IdEnd(s, k).Some? then Some((k, IdEnd(s, k).value))
    else
      assert !MatchAt(s, k);
      LastMatch(s, k - 1)
  }

  /** The path without a final "\n": the part `.*` and `$` let the match cover. */
  function Core(path: string): string {
    if |path| > 0 && path[|path| - 1] == '\n' then path[..|path| - 1] else path
  }

  lemma CoreShape(path: string)
    ensures path == Core(path) || path == Core(path) + "\n"
  {
    if |path| > 0 && path[|path| - 1] == '\n' {
      assert path == path[..|path| - 1] + [path[|path| - 1]];
    }
  }

  /**
   * The regex matches path with groups (prefix, id, suffix): prefix ends
   * with the marker, id is an identifier, and prefix + id + suffix is the
   * path up to an optional final "\n" and crosses no line.
   */
  ghost predicate Split(path: string, prefix: string, id: string, suffix: string) {
    && (path == prefix + id + suffix || path == prefix + id + suffix + "\n")
    && NoNewline(prefix + id + suffix)
    && MarkerEndsAt(prefix, |prefix|)
    && IsReadId(id)
  }

  /**
   * Where the regex matches, as (end of group 1, end of group 2) in
   * Core(path); None when it does not. The guard on the lower-cased path
   * comes first, as in the program.
   */
  function ReadMatch(path: string): (m: Option<(nat, nat)>)
    ensures m.Some? ==> NoNewline(Core(path)) && m.value.1 <= |Core(path)|
    ensures m.Some? ==> MatchAt(Core(path), m.value.0) && IdEnd(Core(path), m.value.0) == Some(m.value.1)
    ensures m.Some? ==> forall p :: m.value.0 < p <= |Core(path)| ==> !MatchAt(Core(path), p)
  {
    if !Contains(LowerStr(path), MARKER) then None
    else
      var core := Core(path);
      if !NoNewline(core) then None else LastMatch(core, |core|)
  }

  /**
   * The groups the regex returns: a parse whose marker is the last one an
   * identifier follows, and whose identifier is the one IdEnd takes there.
   */
  ghost predicate RegexGroups(path: string, prefix: string, id: string, suffix: string) {
    && Split(path, prefix, id, suffix)
    && IdEnd(Core(path), |prefix|).Some? && IdEnd(Core(path), |prefix|).value == |prefix| + |id|
    && forall p :: |prefix| < p <= |Core(path)| ==> !MatchAt(Core(path), p)
  }

  /**
   * `remove_read_number`: (key, identifier). The key is the path with the
   * identifier after the last marker that an identifier follows replaced by
   * PLACEHOLDER; without such a marker, the path itself and None.
   */
  function RemoveReadNumber(path: string): (r: (string, Option<string>))
    ensures !Contains(LowerStr(path), MARKER) ==> r == (path, None)
    ensures r.1.None? ==> r.0 == path
    ensures r.1.Some? ==> exists prefix, suffix :: RegexGroups(path, prefix, r.1.value, suffix) && r.0 == prefix + PLACEHOLDER + suffix
  {
    match ReadMatch(path)
    case None => (path, None)
    case Some((p, e)) =>
      var core := Core(path);
      var prefix, id, suffix := core[..p], core[p..e], core[e..];
      RegexGroupsAt(path, p, e);
      assert |prefix| == p;
      assert RegexGroups(path, prefix, id, suffix);
      (prefix + PLACEHOLDER + suffix, Some(id))
  }

  /** A match found at (p, e) gives the regex's first two groups. */
  lemma RegexGroupsAt(path: string, p: nat, e: nat)
    requires NoNewline(Core(path)) && e <= |Core(path)|
    requires MatchAt(Core(path), p) && IdEnd(Core(path), p) == Some(e)
    ensures p <= e
    ensures Split(path, Core(path)[..p], Core(path)[p..e], Core(path)[e..])
    ensures IdEnd(Core(path), |Core(path)[..p]|).Some?
    ensures IdEnd(Core(path), |Core(path)[..p]|).value == |Core(path)[..p]| + |Core(path)[p..e]|
  {
    SplitAt(path, p, e);
  }

  /** A match found at (p, e) is a parse of the path. */
  lemma SplitAt(path: string, p: nat, e: nat)
    requires NoNewline(Core(path)) && e <= |Core(path)|
    requires MatchAt(Core(path), p) && IdEnd(Core(path), p) == Some(e)
    ensures Split(path, Core(path)[..p], Core(path)[p..e], Core(path)[e..])
  {
    var core := Core(path);
    var prefix, id, suffix := core[..p], core[p..e], core[e..];
    CutTwice(core, p, e);
    CoreShape(path);
    assert MarkerEndsAt(prefix, |prefix|) by { assert prefix[p - 6..p] == core[p - 6..p]; }
    assert IsReadId(id);
  }

  /** A parse fixes the part of the path the match may cover, and passes the guard. */
  lemma SplitCore(path: string, prefix: string, id: string, suffix: string)
    requires Split(path, prefix, id, suffix)
    ensures Core(path) == prefix + id + suffix
    ensures Contains(LowerStr(path), MARKER)
  {
    var core := prefix + id + suffix;
    var p := |prefix|;
    if path == core + "\n" {
      assert path[..|path| - 1] == core;
    } else {
      assert |core| > 0 ==> core[|core| - 1] != '\n';
    }
    MarkerMeansGuard(path, p) by { assert path[p - 6..p] == prefix[p - 6..p]; }
  }

  lemma LowerSlice(s: string, i: nat, j: nat)
    requires i <= j <= |s|
    ensures LowerStr(s)[i..j] == LowerStr(s[i..j])
  {
  }

  /** The guard on the lower-cased path holds whenever a marker ends somewhere in the path. */
  lemma MarkerMeansGuard(s: string, p: nat)
    requires MarkerEndsAt(s, p)
    ensures Contains(LowerStr(s), MARKER)
  {
    LowerSlice(s, p - 6, p);
    assert OccursAt(LowerStr(s), MARKER, p - 6);
  }

  /**
   * Whenever the regex can match, remove_read_number finds an identifier, and
   * its prefix is at least as long as any other parse's: the identifier it
   * replaces follows the last marker that an identifier follows.
   */
  lemma {:induction false} RemoveReadNumberComplete(path: string, prefix: string, id: string, suffix: string)
    requires Split(path, prefix, id, suffix)
    ensures RemoveReadNumber(path).1.Some?
    ensures exists prefix', suffix' ::
      Split(path, prefix', RemoveReadNumber(path).1.value, suffix')
      && RemoveReadNumber(path).0 == prefix' + PLACEHOLDER + suffix'
      && |prefix| <= |prefix'|
  {
    MatchFound(path, prefix, id, suffix);
    var core := Core(path);
    var p', e' := ReadMatch(path).value.0, ReadMatch(path).value.1;
    SplitAt(path, p', e');
    var prefix', suffix' := core[..p'], core[e'..];
    var r := RemoveReadNumber(path);
    assert r == (prefix' + PLACEHOLDER + suffix', Some(core[p'..e']));
    assert Split(path, prefix', r.1.value, suffix') && r.0 == prefix' + PLACEHOLDER + suffix' && |prefix| <= |prefix'|;
  }

  /** A parse makes the scan succeed, at the parse's marker or a later one. */
  lemma MatchFound(path: string, prefix: string, id: string, suffix: string)
    requires Split(path, prefix, id, suffix)
    ensures ReadMatch(path).Some? && ReadMatch(path).value.0 >= |prefix|
  {
    SplitCore(path, prefix, id, suffix);
    var core := Core(path);
    var p := |prefix|;
    assert MarkerEndsAt(core, p) by { assert core[p - 6..p] == prefix[p - 6..p]; }
    assert core[p..p + |id|] == id;
    IdEndComplete(core, p, p + |id|);
    assert MatchAt(core, p);
  }

  /**
   * A path whose last marker is followed by a decimal identifier shorter
   * than the 32 word characters of a UUID, and then by the end of the path or
   * a character that is neither a word character nor '-', normalises to the
   * path with that identifier replaced, and gives the identifier back.
   */
  lemma {:induction false} DecimalIdReplaced(prefix: string, id: string, suffix: string)
    requires MarkerEndsAt(prefix, |prefix|)
    requires IsDecimalId(id) && |id| < 32
    requires suffix == [] || (!IsWordChar(suffix[0]) && suffix[0] != '-')
    requires forall p :: !MarkerEndsAt(suffix, p)
    requires NoNewline(prefix + id + suffix)
    ensures RemoveReadNumber(prefix + id + suffix) == (prefix + PLACEHOLDER + suffix, Some(id))
  {
    var path := prefix + id + suffix;
    var p, e := |prefix|, |prefix| + |id|;
    DecimalIdMatch(prefix, id, suffix);
    assert Core(path) == path;
    assert path[..p] == prefix && path[p..e] == id && path[e..] == suffix;
  }

  /** Where the regex matches such a path: group 1 ends after prefix, group 2 after id. */
  lemma DecimalIdMatch(prefix: string, id: string, suffix: string)
    requires MarkerEndsAt(prefix, |prefix|)
    requires IsDecimalId(id) && |id| < 32
    requires suffix == [] || (!IsWordChar(suffix[0]) && suffix[0] != '-')
    requires forall p :: !MarkerEndsAt(suffix, p)
    requires NoNewline(prefix + id + suffix)
    ensures ReadMatch(prefix + id + suffix).Some?
    ensures ReadMatch(prefix + id + suffix).value.0 == |prefix|
    ensures ReadMatch(prefix + id + suffix).value.1 == |prefix| + |id|
  {
    var path := prefix + id + suffix;
    var p, e := |prefix|, |prefix| + |id|;
    assert Core(path) == path;
    assert MarkerEndsAt(path, p) by { assert path[p - 6..p] == prefix[p - 6..p]; }
    MarkerMeansGuard(path, p);
    assert forall i :: p <= i < e ==> IsDecimalChar(path[i]) by {
      assert forall i :: p <= i < e ==> path[i] == id[i - p];
    }
    assert e < |path| ==> path[e] == suffix[0];
    DecimalIdEnd(path, p, e);
    forall p' | p < p' <= |path| ensures !MarkerEndsAt(path, p') {
      NoMarkerAfter(prefix, id, suffix, p');
    }
    LastMatchAt(path, |path|, p, e);
  }

  /** The whole digit run is the read number: "a/read_" + "123" + "/b" keys as "a/read_XXX/b" with read number "123". */
  lemma ReadNumberExample(prefix: string, id: string, suffix: string)
    requires prefix == "a/read_" && id == "123" && suffix == "/b"
    ensures RemoveReadNumber(prefix + id + suffix) == (prefix + PLACEHOLDER + suffix, Some(id))
  {
    assert LowerStr(prefix[1..7]) == MARKER;
    DecimalIdReplaced(prefix, id, suffix);
  }

  /** A run of fewer than 32 digits ended by a non-word, non-'-' character is the identifier found there. */
  lemma DecimalIdEnd(s: string, p: nat, e: nat)
    requires p < e <= |s| && e - p < 32
    requires forall i :: p <= i < e ==> IsDecimalChar(s[i])
    requires e < |s| ==> !IsWordChar(s[e]) && s[e] != '-'
    ensures IdEnd(s, p) == Some(e)
  {
    // The first alternative finds no 32 word characters after the marker.
    assert GreedyEnd(s, p, UUID_PATTERN).None? by {
      var g := GreedyEnd(s, p, UUID_PATTERN);
      if g.Some? {
        NoUuidBeforeSeparator(s, p, e, g.value);
      }
    }
    DigitRunFrom(s, p, e);
  }

  /** With no marker ending after p, the last match is the one at p. */
  lemma {:induction false} LastMatchAt(s: string, k: nat, p: nat, e: nat)
    requires p <= k <= |s| && MarkerEndsAt(s, p) && IdEnd(s, p) == Some(e)
    requires forall q :: p < q <= k ==> !MarkerEndsAt(s, q)
    ensures LastMatch(s, k) == Some((p, e))
    decreases k
  {
    if k > p {
      LastMatchAt(s, k - 1, p, e);
    }
  }

  lemma DigitRunFrom(s: string, q: nat, e: nat)
    requires q <= e <= |s|
    requires forall i :: q <= i < e ==> IsDecimalChar(s[i])
    requires e < |s| ==> !IsDecimalChar(s[e])
    ensures DigitRunEnd(s, q) == e
    decreases e - q
  {
    if q < e {
      DigitRunFrom(s, q + 1, e);
    }
  }

  /** Text of digits cut off by a non-word, non-'-' character cannot hold the 32 word characters of a UUID. */
  lemma NoUuidBeforeSeparator(s: string, q: nat, e: nat, g: nat)
    requires q < e <= |s| && e - q < 32
    requires forall i :: q <= i < e ==> IsDecimalChar(s[i])
    requires e < |s| ==> !IsWordChar(s[e]) && s[e] != '-'
    requires q <= g <= |s|
    ensures !Matches(s[q..g], UUID_PATTERN)
  {
    var t := s[q..g];
    if Matches(t, UUID_PATTERN) {
      var tail := UUID_PATTERN[1..];
      // The leading '{' is absent: the text starts with a digit.
      assert Matches(t, tail) by {
        if |t| > 0 { assert t[0] == s[q]; }
      }
      UuidTail();
      WordsStopAt(s, q, e, g, tail);
    }
  }

  /** Past its optional '{', the UUID pattern holds 32 word characters, and its optional characters are '-' and a final '}'. */
  lemma UuidTail()
    ensures WordTotal(UUID_PATTERN[1..]) == 32
    ensures forall k :: 0 <= k < |UUID_PATTERN[1..]| && UUID_PATTERN[1..][k].Optional? ==>
      UUID_PATTERN[1..][k].c == '-' || (UUID_PATTERN[1..][k].c == '}' && k == |UUID_PATTERN[1..]| - 1)
  {
    var tail := UUID_PATTERN[1..];
    assert tail[9..][1..] == tail[10..] && WordTotal(tail[9..]) == 0;
    assert tail[8..][1..] == tail[9..] && WordTotal(tail[8..]) == 12;
    assert tail[7..][1..] == tail[8..] && WordTotal(tail[7..]) == 12;
    assert tail[6..][1..] == tail[7..] && WordTotal(tail[6..]) == 16;
    assert tail[5..][1..] == tail[6..] && WordTotal(tail[5..]) == 16;
    assert tail[4..][1..] == tail[5..] && WordTotal(tail[4..]) == 20;
    assert tail[3..][1..] == tail[4..] && WordTotal(tail[3..]) == 20;
    assert tail[2..][1..] == tail[3..] && WordTotal(tail[2..]) == 24;
    assert tail[1..][1..] == tail[2..] && WordTotal(tail[1..]) == 24;
    assert tail[0..][1..] == tail[1..] && WordTotal(tail[0..]) == 32;
    assert tail[0..] == tail;
  }


  /**
   * A pattern whose optional characters are '-' and a final '}' matches text
   * starting in a run of digits s[j..e] that a non-word, non-'-' character
   * ends only if its word runs fit inside the digits.
   */
  lemma {:induction false} WordsStopAt(s: string, j: nat, e: nat, g: nat, pattern: seq<Piece>)
    requires j <= e <= |s| && j <= g <= |s|
    requires forall i :: j <= i < e ==> IsDecimalChar(s[i])
    requires e < |s| ==> !IsWordChar(s[e]) && s[e] != '-'
    requires forall k :: 0 <= k < |pattern| && pattern[k].Optional? ==>
      pattern[k].c == '-' || (pattern[k].c == '}' && k == |pattern| - 1)
    requires Matches(s[j..g], pattern)
    ensures WordTotal(pattern) <= e - j
    decreases |pattern|
  {
    if pattern != [] {
      var t, rest := s[j..g], pattern[1..];
      assert forall k :: 0 <= k < |rest| ==> rest[k] == pattern[k + 1];
      match pattern[0]
      case Optional(c) =>
        if c == '-' {
          assert !(|t| > 0 && t[0] == c) by { if |t| > 0 { assert t[0] == s[j]; } }
          WordsStopAt(s, j, e, g, rest);
        }
      case WordRun(n) =>
        assert j + n <= e;
        assert t[n..] == s[j + n..g];
        WordsStopAt(s, j + n, e, g, rest);
    }
  }

  /** No marker ends past the identifier when none ends inside the suffix. */
  lemma NoMarkerAfter(prefix: string, id: string, suffix: string, p': nat)
    requires IsDecimalId(id)
    requires forall p :: !MarkerEndsAt(suffix, p)
    requires |prefix| < p' <= |prefix + id + suffix|
    ensures !MarkerEndsAt(prefix + id + suffix, p')
  {
    var e := |prefix| + |id|;
    if 6 <= p' {
      if p' <= e {
        NoMarkerEndingInId(prefix, id, suffix, p');
      } else if p' - 6 >= e {
        NoMarkerInSuffix(prefix, id, suffix, p');
      } else {
        NoMarkerAcrossId(prefix, id, suffix, p');
      }
    }
  }

  /** A window ending in a digit of id ends where MARKER has '_'. */
  lemma NoMarkerEndingInId(prefix: string, id: string, suffix: string, p': nat)
    requires IsDecimalId(id)
    requires 6 <= p' && |prefix| < p' <= |prefix| + |id|
    ensures !MarkerEndsAt(prefix + id + suffix, p')
  {
    var path := prefix + id + suffix;
    var w := LowerStr(path[p' - 6..p']);
    assert path[p' - 1] == id[p' - 1 - |prefix|];
    assert w[5] != MARKER[5];
  }

  /** A window wholly inside the suffix is one of the suffix's own windows. */
  lemma NoMarkerInSuffix(prefix: string, id: string, suffix: string, p': nat)
    requires forall p :: !MarkerEndsAt(suffix, p)
    requires |prefix| + |id| <= p' - 6 && p' <= |prefix + id + suffix|
    ensures !MarkerEndsAt(prefix + id + suffix, p')
  {
    var path := prefix + id + suffix;
    var e := |prefix| + |id|;
    assert path[e..] == suffix;
    assert path[p' - 6..p'] == path[e..][p' - 6 - e..p' - e];
    assert !MarkerEndsAt(suffix, p' - e);
  }

  /** A window holding the last digit of id, where MARKER holds no digit. */
  lemma NoMarkerAcrossId(prefix: string, id: string, suffix: string, p': nat)
    requires IsDecimalId(id)
    requires |prefix| + |id| < p' < |prefix| + |id| + 6 && p' <= |prefix + id + suffix|
    ensures !MarkerEndsAt(prefix + id + suffix, p')
  {
    var path := prefix + id + suffix;
    var e := |prefix| + |id|;
    if 6 <= p' {
      var w := LowerStr(path[p' - 6..p']);
      var k := e - 1 - (p' - 6);
      assert path[e - 1] == id[|id| - 1];
      assert w[k] == Lower(path[e - 1]);
      assert w[k] != MARKER[k];
    }
  }

  /** Two paths that differ only in such a decimal identifier share their key, and each gives back its own identifier. */
  lemma SameKeyForReadNumbers(prefix: string, id1: string, id2: string, suffix: string)
    requires MarkerEndsAt(prefix, |prefix|)
    requires IsDecimalId(id1) && |id1| < 32 && IsDecimalId(id2) && |id2| < 32
    requires suffix == [] || (!IsWordChar(suffix[0]) && suffix[0] != '-')
    requires forall p :: !MarkerEndsAt(suffix, p)
    requires NoNewline(prefix + suffix)
    ensures RemoveReadNumber(prefix + id1 + suffix).0 == RemoveReadNumber(prefix + id2 + suffix).0
    ensures RemoveReadNumber(prefix + id1 + suffix).1 == Some(id1)
    ensures RemoveReadNumber(prefix + id2 + suffix).1 == Some(id2)
  {
    forall id | IsDecimalId(id) ensures NoNewline(prefix + id + suffix) {
      var s := prefix + id + suffix;
      forall i | 0 <= i < |s| ensures s[i] != '\n' {
        if i < |prefix| { assert s[i] == (prefix + suffix)[i]; }
        else if i < |prefix| + |id| { assert s[i] == id[i - |prefix|]; }
        else { assert s[i] == (prefix + suffix)[i - |id|]; }
      }
    }
    DecimalIdReplaced(prefix, id1, suffix);
    DecimalIdReplaced(prefix, id2, suffix);
  }
}
