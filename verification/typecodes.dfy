/**
 * Type descriptors as the converter handles them: numpy dtype strings such as
 * "<i8", "|S12" or "int32", stripped of their byte-order mark, compared with
 * text widths ignored, and classified into the tag types of the output; plus
 * the three predicates that recognise the FASTQ, raw-signal and event
 * datasets by their node path.
 */
module TypeCodes {
  import opened Common

  /** The characters numpy writes in front of a dtype string for byte order. */
  predicate IsOrderMark(c: char) {
    c == '=' || c == '>' || c == '<' || c == '|'
  }

  predicate HasOrderMark(typ: string) {
    |typ| > 0 && IsOrderMark(typ[0])
  }

  /** `convert_t`: drop one leading byte-order mark. */
  function ConvertT(typ: string): (r: string)
    ensures |typ| - 1 <= |r| <= |typ| && r == typ[|typ| - |r|..]
    ensures r == typ <==> !HasOrderMark(typ)
  {
    if HasOrderMark(typ) then typ[1..] else typ
  }

  /** Only one mark goes: a descriptor written with two keeps its second. */
  lemma ConvertTStripsOne(c: char, rest: string)
    requires IsOrderMark(c)
    ensures ConvertT([c] + rest) == rest
    ensures HasOrderMark(rest) ==> ConvertT(ConvertT([c] + rest)) != ConvertT([c] + rest)
  {
    assert ([c] + rest)[1..] == rest;
  }

  predicate IsTextCode(t: string, kind: char) {
    |t| > 0 && t[0] == kind
  }

  /** `types_equal`: two byte strings or two unicode strings match whatever their widths; other types must agree exactly. */
  function TypesEqual(t1: string, t2: string): (r: bool)
    ensures r <==> t1 == t2 || (IsTextCode(t1, 'S') && IsTextCode(t2, 'S')) || (IsTextCode(t1, 'U') && IsTextCode(t2, 'U'))
  {
    if StartsWith(t1, "S") && StartsWith(t2, "S") then true
    else if StartsWith(t1, "U") && StartsWith(t2, "U") then true
    else t1 == t2
  }

  /** TypesEqual is an equivalence, so the first type stored for a column decides the class every later sighting must fall in. */
  lemma TypesEqualIsEquivalence(a: string, b: string, c: string)
    ensures TypesEqual(a, a)
    ensures TypesEqual(a, b) == TypesEqual(b, a)
    ensures TypesEqual(a, b) && TypesEqual(b, c) ==> TypesEqual(a, c)
  {
  }

  /** Text of different widths is the same type; numbers of different widths are not. */
  lemma TypesEqualExamples()
    ensures TypesEqual("S5", "S12") && TypesEqual("U1", "U40")
    ensures !TypesEqual("S5", "U5") && !TypesEqual("i4", "i8") && !TypesEqual("f4", "i4")
  {
  }

  /** The tag type the encoding pass hands to the output: 'i', 'f', or none for text. */
  datatype TagType = IntTag | FloatTag | Untyped

  /** `get_tag_type`: classify a converted dtype string by its first character. */
  function GetTagType(code: string): (r: Result<TagType>)
    ensures r.Err? <==> !(|code| > 0 && code[0] in "uifSU")
    ensures r.Err? ==> r.error == UnknownType(code)
    ensures r == Ok(IntTag) <==> |code| > 0 && (code[0] == 'u' || code[0] == 'i')
    ensures r == Ok(FloatTag) <==> |code| > 0 && code[0] == 'f'
    ensures r == Ok(Untyped) <==> |code| > 0 && (code[0] == 'S' || code[0] == 'U')
  {
    if StartsWith(code, "u") || StartsWith(code, "i") then Ok(IntTag)
    else if StartsWith(code, "f") then Ok(FloatTag)
    else if StartsWith(code, "S") || StartsWith(code, "U") then Ok(Untyped)
    else Err(UnknownType(code))
  }

  /**
   * The type half of `convert_type`: the dtype string without its byte-order
   * mark, cut to its kind letter for byte and unicode strings.
   */
  function HdfType(dtype: string): (r: string)
    ensures (IsTextCode(ConvertT(dtype), 'S') || IsTextCode(ConvertT(dtype), 'U')) ==> |r| == 1 && r[0] == ConvertT(dtype)[0]
    ensures !(IsTextCode(ConvertT(dtype), 'S') || IsTextCode(ConvertT(dtype), 'U')) ==> r == ConvertT(dtype)
  {
    var typ := ConvertT(dtype);
    if StartsWith(typ, "U") || StartsWith(typ, "S") then typ[..1] else typ
  }

  /**
   * Every attribute of numeric or text dtype gets a tag type; any other kind
   * (numpy's 'b' for booleans, 'c' for complex numbers, 'O' for objects, ...)
   * makes the encoding pass stop.
   */
  lemma HdfTypeClassified(dtype: string)
    ensures GetTagType(HdfType(dtype)).Ok? <==> |ConvertT(dtype)| > 0 && ConvertT(dtype)[0] in "uifSU"
    ensures GetTagType(HdfType(dtype)) == Ok(Untyped) <==> HdfType(dtype) == "S" || HdfType(dtype) == "U"
  {
  }

  /** `is_events_path`: the node is named "Events". */
  predicate IsEventsPath(path: string)
    ensures IsEventsPath(path) ==> Contains(path, "/Events") && path[|path| - 1] == 's'
  {
    var b := EndsWith(path, "/Events");
    assert b ==> OccursAt(path, "/Events", |path| - 7);
    b
  }

  /** `is_signal_path`: a node named "Signal" below a "Raw" group; never an events path. */
  predicate IsSignalPath(path: string)
    ensures IsSignalPath(path) ==> !IsEventsPath(path)
  {
    var b := Contains(path, "/Raw") && EndsWith(path, "/Signal");
    assert b ==> path[|path| - 1] == 'l';
    b
  }

  /** `is_fastq_path`: the template's "Fastq" dataset; never a signal or an events path. */
  predicate IsFastqPath(path: string)
    ensures IsFastqPath(path) ==> !IsSignalPath(path) && !IsEventsPath(path)
  {
    var b := EndsWith(path, "BaseCalled_template/Fastq");
    assert b ==> path[|path| - 1] == 'q' && path[|path| - 6] == '/';
    b
  }
}
