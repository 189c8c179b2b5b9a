# ont2cram in Dafny: schema discovery, tag allocation and record encoding

ont2cram converts Oxford Nanopore Fast5 files (HDF5) into one CRAM file. It
makes two passes over the input files.

The first pass, discovery, walks every node of every file and builds one
insertion-ordered directory, `global_dict_attributes`, keyed by the node's
path with its read identifier replaced by `XXX`:

- a dataset column is stored as `[type, 0]`, and a later column of a
  different type stops the run;
- an attribute is stored as `[first value, count]`, and its count goes up on
  every later sighting of the same value.

The header loop then gives every key, in insertion order, a two-character
base-62 tag from `a0` on. It adds a default (`CV:`) when the key's count,
the number of sightings of its first value, is more than half the number of
files. It writes one `COL`/`ATR` comment line per key.

The second pass, encoding, writes one unaligned record per read group. The
record carries:

- the file name under `X1` and the read number under `X0`;
- one tag per column of every dataset that is not skipped (FASTQ datasets
  always, signal and events datasets under `--skipsignal`);
- one tag per attribute whose rendering differs from the key's default;
- the read's name, bases and qualities from an embedded or external FASTQ.

## Modules

| file | module | what it holds |
|---|---|---|
| common.dfy | Common | `Option`, `Result`, the run's error causes, Python string helpers (`startswith`, `find`, slicing, `splitlines`) |
| tags.dfy | Tags | the `Tag` class, its base-62 codec (`tag_to_int`, `int_to_tag`) and the round trips between them |
| typecodes.dfy | TypeCodes | `convert_t`, `types_equal`, `get_tag_type`, the type part of `convert_type`, the `is_*_path` predicates |
| readpath.dfy | ReadPath | `remove_read_number`, with its regular expression written as a scan and proved sound and complete |
| nodes.dfy | Nodes | what a walk sees of an HDF5 node: its name, its attributes, and its columns for a dataset |
| schema.dfy | Schema | the discovery updates as functions on a directory value |
| header.dfy | Header | the header loop's result as functions: tags, defaults, comment lines, and `get_tag_name_cv` |
| store.dfy | Store | the directory as a class, with discovery and the header loop as methods proved against Schema and Header |
| encoding.dfy | Encoding | the encoding pass's decisions per node, per read group and per file |

Each imperative part of the program is a method: `int_to_tag`'s loop, the
`Tag` counter, the in-place discovery updates, and the header loop. Each
method is proved to leave the state a pure function describes. The pure
parts are functions, and lemmas relate them.

## Model

| member | source | states |
|---|---|---|
| Tags.TagToInt | ont2cram.py:24-25 | a name has a number exactly when its first two characters are base-62 digits; the number is below 62*62 and is the digits' base-62 value |
| Tags.IntToTag | ont2cram.py:33-40 | the divmod loop builds exactly `Base62(num)`, including "0" for zero |
| Tags.Base62Shape | ont2cram.py:33-40 | the result is non-empty digits; it is one character iff num < 62, two for 62 <= num < 3844, and has no leading '0' |
| Tags.Base62RoundTrip | ont2cram.py:24-40 | reading the digits of `Base62(n)` back in base 62 gives n |
| Tags.TagRoundTrip | ont2cram.py:24-40 | for 62 <= n < 3844, `tag_to_int(int_to_tag(n)) == n` and the tag has two characters |
| Tags.TagRoundTripBack | ont2cram.py:24-40 | a two-digit tag not starting with '0' survives `int_to_tag(tag_to_int(t))` |
| Tags.TagsDistinct | ont2cram.py:33-40 | different numbers in the two-character range get different tags |
| Tags.NamedTagNumbers | ont2cram.py:13-16 | a0, zZ, X0 and X1 are the numbers 620, 2231, 3658 and 3659 |
| Tags.Tag.constructor | ont2cram.py:21-22 | a new Tag stands at the number of its start tag |
| Tags.Tag.Increment | ont2cram.py:27-28 | the counter goes up by one |
| Tags.Tag.GetName | ont2cram.py:30-31 | the name is the base-62 tag of the counter |
| Tags.NameAfterIncrements | ont2cram.py:21-40 | a new Tag incremented k times stands at start + k and names `Base62(start + k)` |
| Tags.IncrementTimes | ont2cram.py:27-28 | k increments add k to the counter |
| Common.SplitLines | ont2cram.py:136 | `splitlines`: no line holds a line break |
| Common.SplitJoinLines | ont2cram.py:136 | splitting lines joined with "\n" gives the lines back |
| TypeCodes.ConvertT | ont2cram.py:50-52 | the result is the input with at most its first character removed, and it differs from the input exactly when that character is one of `= > < \|` |
| TypeCodes.ConvertTStripsOne | ont2cram.py:50-52 | exactly one leading order mark is stripped, even when a second one follows |
| TypeCodes.TypesEqual | ont2cram.py:73-76 | the case analysis of `types_equal`: the same string, or both text of one kind (S or U); what it means for discovery is TypesEqualIsEquivalence |
| TypeCodes.TypesEqualIsEquivalence | ont2cram.py:73-76 | `types_equal` is reflexive, symmetric and transitive, so the column types a key accepts form one class |
| TypeCodes.TypesEqualExamples | ont2cram.py:73-76 | examples only: S5 ~ S12 and U1 ~ U40, while S5/U5, i4/i8 and f4/i4 differ |
| TypeCodes.GetTagType | ont2cram.py:44-48 | u/i give an integer tag, f a float tag, S/U no type, and any other code stops the run with UnknownType |
| TypeCodes.HdfType | ont2cram.py:60-62 | a text type is cut to its letter after `convert_t`; any other type is `convert_t` of the dtype |
| TypeCodes.HdfTypeClassified | ont2cram.py:44-62 | an attribute's type is classified iff its stripped dtype starts with u, i, f, S or U, and it is untyped exactly for text |
| TypeCodes.IsFastqPath | ont2cram.py:64-65 | a FASTQ path is never a signal or an events path |
| TypeCodes.IsSignalPath | ont2cram.py:67-68 | a signal path is never an events path |
| TypeCodes.IsEventsPath | ont2cram.py:70-71 | an events path contains "/Events" and ends in 's' |
| ReadPath.RemoveReadNumber | ont2cram.py:93-101 | without "/read_" in the lower-cased path the result is (path, None); without a match the path is unchanged; with one, (prefix, id, suffix) are the regex groups: prefix + id + suffix is the path up to a final newline and crosses no line, prefix ends in the marker and no later marker is followed by an identifier, id is the identifier IdEnd takes there, and the key is prefix + "XXX" + suffix |
| ReadPath.RemoveReadNumberComplete | ont2cram.py:93-101 | whenever the path parses as marker, identifier and rest, an identifier is returned, from a parse whose marker is at or after that one (the greedy `^.*`) |
| ReadPath.MatchFound | ont2cram.py:94-98 | any parse of the path passes the guard and yields a match whose marker ends at or after the parse's |
| ReadPath.GreedyEnd | ont2cram.py:97 | a UUID-shaped end found by the scan is a match of `{?\w{8}-?\w{4}-?\w{4}-?\w{4}-?\w{12}}?` |
| ReadPath.GreedyEndComplete | ont2cram.py:97 | the scan misses no match of that pattern |
| ReadPath.IdEnd | ont2cram.py:97 | an identifier found after the marker is non-empty and inside the path; which one is IdEndChoice, and that it is one is IdEndSound |
| ReadPath.IdEndComplete | ont2cram.py:97 | an identifier of either kind is found |
| ReadPath.IdEndSound | ont2cram.py:97 | what IdEnd finds is a match of the UUID alternative or of `\d+` |
| ReadPath.IdEndChoice | ont2cram.py:97 | the UUID alternative is tried first and takes its longest match; only when none starts there does `\d+` apply, and then it takes the whole run of digits |
| ReadPath.LastMatch | ont2cram.py:97 | the greedy `^.*` picks the last marker followed by an identifier, and no later one exists |
| ReadPath.ReadMatch | ont2cram.py:94-97 | the guard comes first; a match crosses no newline and ends inside the path |
| ReadPath.DecimalIdReplaced | ont2cram.py:93-101 | a decimal id after the last marker, followed by a separator, is cut out and given back |
| ReadPath.ReadNumberExample | ont2cram.py:93-101 | "a/read_123/b" gives the key "a/read_XXX/b" and the read number "123", the whole digit run |
| ReadPath.SameKeyForReadNumbers | ont2cram.py:93-101 | two paths that differ only in such an id get the same key and each gives back its own id |
| ReadPath.NoUuidBeforeSeparator | ont2cram.py:97 | fewer than 32 digits followed by a separator never match the UUID alternative |
| ReadPath.NoMarkerAfter | ont2cram.py:97 | no marker ends inside the id, or past it when none ends inside the rest |
| Schema.ColumnStep | ont2cram.py:81-90 | a new column key is appended as [type, 0]; a known key is left unchanged when its stored type `types_equal` the new one; otherwise the run stops with ColumnTypeConflict, or NotATypeCode when the key holds an attribute |
| Schema.ColumnsStep | ont2cram.py:81-90 | the directory only grows, its shape is kept, and afterwards every column's key is present; errors are type conflicts |
| Schema.DatasetStep | ont2cram.py:78-80 | a FASTQ dataset leaves the directory alone; any other dataset goes through its columns |
| Schema.AttrStep | ont2cram.py:112-119 | a new key is appended as [value, 1]; a known key's count goes up by one iff the value equals the stored one; the stored value and the key order never change |
| Schema.AttrStepRepeat | ont2cram.py:115-117 | a repeated sighting of the stored value gives count n + 1 and nothing else changes |
| Schema.AttrsStep | ont2cram.py:112-119 | the directory only grows, its shape is kept, the loop never fails on a discovered directory, and every attribute key is present afterwards |
| Schema.NodeStep | ont2cram.py:103-119 | a node adds its columns and its attributes under its read-number-free path; afterwards the node is registered (every attribute key, and every column key of a non-FASTQ dataset, is present); it can only fail on a column type |
| Schema.FileStep | ont2cram.py:121-124 | one file's walk only grows the directory, keeps its shape and registers every node it visits; it fails only on a column type |
| Schema.Discover | ont2cram.py:268-269 | discovery over all files yields a directory whose columns hold [type, 0] and whose attributes hold [value, n >= 1], in which every node of every file is registered; its only errors are column type errors |
| Schema.DiscoverFrom | ont2cram.py:268-269 | each further file only grows the directory, and every node of those files is registered |
| Schema.NodeKeyShape | ont2cram.py:105-106 | a node without a read id is filed under its own name; one with a read id under the regex's prefix + "XXX" + suffix |
| Schema.DiscoverCounts | ont2cram.py:112-124 | after discovery, an attribute key's count is the number of sightings, over all files and nodes, of a value equal to its first value |
| Schema.ColumnStepGrows | ont2cram.py:81-90 | one column step grows the directory and keeps its shape |
| Schema.AttrStepGrows | ont2cram.py:112-119 | one attribute step grows the directory and keeps its shape |
| Schema.GrownTransitive | ont2cram.py:103-124 | growth composes over successive steps |
| Store.SchemaDirectory.constructor | ont2cram.py:42 | the directory starts empty |
| Store.SchemaDirectory.ProcessDataset | ont2cram.py:78-90 | the in-place update succeeds exactly when DatasetStep does and leaves its directory; otherwise it reports DatasetStep's error |
| Store.SchemaDirectory.ProcessAttrs | ont2cram.py:112-119 | the in-place attribute loop ends in AttrsStep's directory, or reports its error |
| Store.SchemaDirectory.PreProcessGroupAttrs | ont2cram.py:103-119 | the in-place update for one node ends in NodeStep's directory, or reports its error |
| Store.SchemaDirectory.DiscoverFile | ont2cram.py:121-124 | the in-place walk of one file ends in FileStep's directory, or reports its error |
| Store.DiscoverAll | ont2cram.py:267-269 | a fresh directory filled file by file ends in Discover's directory, or reports its error |
| Store.SchemaDirectory.WriteHeader | ont2cram.py:141-158 | with at most 1611 keys, the comment lines are HeaderComments and every count is replaced by its tag text (Tagged); with more keys the run stops with TagSpaceExhausted |
| Store.NextTag | ont2cram.py:150-152 | the tag handed out is key i's, the counter moves on by one, and the run stops exactly at i == 1611, when the tag is zZ |
| Store.DescribeKey | ont2cram.py:146-157 | the tag text gets " CV:" + rendering exactly when the value is shared and the key does not contain "read_number"; the comment line is COL/ATR, key, type and tag text |
| Header.GetTagNameCv | ont2cram.py:171-177 | the lookup fails with MissingKey for an unknown key and NoTagAssigned when the entry holds no "TG:" text; otherwise it gives the parsed name and default |
| Header.IsSharedValue | ont2cram.py:130-131 | `count > total // 2` holds exactly when twice the count exceeds the number of files |
| Header.ParseTagText | ont2cram.py:174-176 | the tag name is characters 3 and 4; there is a default iff "CV:" occurs, and it is the text after its first occurrence |
| Header.TagTextRoundTrip | ont2cram.py:155-176 | parsing "TG:" + name + [" CV:" + r] gives back (name, r or None) |
| Header.DefaultAttachedIff | ont2cram.py:130-156 | a default is written iff count > total // 2 and the key does not contain "read_number"; columns (count 0) never get one; the default is the first value's rendering |
| Header.ExhaustionPoint | ont2cram.py:143-152 | the first tag is a0, and the tag text ends in zZ exactly for key 1611 |
| Header.TagNameShape | ont2cram.py:143-152 | key i's tag has two characters and the number 620 + i |
| Header.TagsIncreasing | ont2cram.py:143-152 | tags are strictly increasing in key order, hence distinct |
| Header.ReservedTagsFree | ont2cram.py:15-152 | no key's tag is X0 or X1 |
| Header.HeaderComments | ont2cram.py:146-157 | there is one comment line per key, in key order |
| Header.LookupAfterHeader | ont2cram.py:143-177 | after the header loop, looking up key i gives its tag and its default |
| Header.TagsOfKeysDistinct | ont2cram.py:143-177 | after the header loop, two keys never share a tag and none uses X0 or X1 |
| Header.HeaderBelowStep | ont2cram.py:144-158 | one pass of the loop body extends the comment lines and the tagged entries by key i |
| Header.HeaderBelowEnd | ont2cram.py:144-158 | after the last key the lines are HeaderComments and the directory is Tagged |
| Header.Tagged | ont2cram.py:154-158 | the keys and their order are kept, and entry i becomes key i's tagged entry |
| Header.TaggedShape | ont2cram.py:150-158 | every tagged entry keeps its first value and holds tag text starting with "TG:" |
| Encoding.SkipRule | ont2cram.py:183-186 | `--skipsignal` only adds skipped datasets, each signal or events (never both); with it, the skipped datasets are exactly the FASTQ, signal and events ones |
| Encoding.DatasetSkipped | ont2cram.py:184-186 | a skipped dataset is a FASTQ, signal or events dataset; without `--skipsignal` exactly the FASTQ ones are skipped |
| Encoding.ColumnPayload | ont2cram.py:190-205 | an empty column stops the run with EmptyColumn; a column whose first row is bytes gives exactly `b''.join` of its rows when all rows are bytes, and stops with MixedColumn otherwise; any other column is its list of rows |
| Encoding.JoinBytesKeepsRows | ont2cram.py:198 | the joined bytes hold every row, in order, at its offset |
| Encoding.DatasetTags | ont2cram.py:183-205 | a skipped dataset sets nothing; otherwise column k sets ColumnTag of column k (its key's tag and its payload), in column order, and the first column whose lookup or payload fails stops the run with that error |
| Encoding.ColumnTags | ont2cram.py:187-205 | the tags set are ColumnTag of each column, one per column in order; otherwise the error of the first failing column |
| Encoding.ColumnTag | ont2cram.py:188-205 | a failed lookup of the column's key comes first; then the tag is the key's tag name with ColumnPayload's value, or ColumnPayload's error |
| Encoding.AttrTag | ont2cram.py:220-227 | an attribute is left out iff its rendering equals the key's default; otherwise it is set under the key's tag with `get_tag_type` of its type, which stops the run when it fails; a failed lookup stops the run |
| Encoding.AttrTagAfterHeader | ont2cram.py:155-225 | after the header loop, an attribute is left out exactly when the header's default equals its rendering, so no value is lost; keys without a default are always written, under their own tag |
| Encoding.AttrsTags | ont2cram.py:220-227 | the tags set are exactly those the attributes emit, no attribute failing; otherwise the error of the first failing attribute |
| Encoding.ReadNumberTags | ont2cram.py:213-214 | at most one tag: X0 with the read number, exactly when `remove_read_number` gives a non-empty one |
| Encoding.NodeColumnTags | ont2cram.py:216-218 | a group sets no column tags; a dataset sets DatasetTags under the node's key |
| Encoding.NodeTags | ont2cram.py:208-227 | the read number first, then the columns, then the attributes; a column error stops the node before its attributes, then an attribute error |
| Encoding.GroupTagsFailsFirst | ont2cram.py:233-236 | a read group's tags succeed only when every node's do; otherwise the error is the first failing node's |
| Encoding.GroupTagsAppend | ont2cram.py:233-236 | walking two node sequences in a row sets the first's tags followed by the second's, and the first one's error wins |
| Encoding.NodeTagsFound | ont2cram.py:208-227 | for a node whose keys are all tagged, no lookup fails and no tag overwrites X1 |
| Encoding.GroupTagsFound | ont2cram.py:233-236 | the same for every node of a read group |
| Encoding.KeyTagged | ont2cram.py:143-177 | every discovered key has a tag after the header loop, and it is neither X0 nor X1 |
| Encoding.LastFastqPath | ont2cram.py:207-212 | when the walk visits FASTQ-looking nodes, `fastq_path` ends as the name of the last of them; when it visits none, it stays what it was |
| Encoding.FastqPathCarriesOver | ont2cram.py:207-244 | a later read group without its own FASTQ dataset repeats the name, bases and qualities of the group before it |
| Encoding.ManyReads | ont2cram.py:229-231 | a file without top-level nodes stops the run; otherwise it holds many reads iff its first top-level name starts with "read_" |
| Encoding.ReadFastqFromFile | ont2cram.py:133-138 | the external FASTQ is accepted iff it has exactly four lines, and InvalidFastq otherwise |
| Encoding.QueryFields | ont2cram.py:242-244 | name, bases and qualities are lines 0, 1 and 3; fewer than four lines stop the run |
| Encoding.FastqLines | ont2cram.py:238-240 | the external file wins over the embedded dataset, which wins over the "nofastq" default; a FASTQ-looking name that is not a dataset stops the run, and that and an invalid external file are the only failures |
| Encoding.ExternalFastqRecord | ont2cram.py:133-244 | a four-line external file gives its lines 0, 1 and 3; a five-line one stops the run |
| Encoding.EmbeddedFastqUnchecked | ont2cram.py:239-244 | an embedded FASTQ of five lines is taken without complaint |
| Encoding.EmbeddedFastqFields | ont2cram.py:239-244 | an embedded four-line FASTQ gives name, bases and qualities from its lines 0, 1 and 3 |
| Encoding.EmbeddedFastqRecord | ont2cram.py:207-244 | in a read group whose last FASTQ-looking node holds a four-line FASTQ, the record carries its lines 0, 1 and 3 as name, bases and qualities |
| Encoding.ExternalFastqShared | ont2cram.py:240 | with a FASTQ directory, every group of a file gets the same external lines |
| Encoding.Unaligned | ont2cram.py:245-252 | flag 4, reference and mate fields 0, mapping quality 0, empty CIGAR |
| Encoding.ApplyTags | ont2cram.py:235-236 | every tag already set and every tag named by a call is present afterwards |
| Encoding.ApplyTagsLastWins | ont2cram.py:235-236 | a tag ends with the value of the last call that sets it |
| Encoding.ApplyTagsKeeps | ont2cram.py:235-236 | a tag no later call names keeps its value |
| Encoding.GroupRecord | ont2cram.py:233-252 | tag errors come first, then FASTQ errors, then too few FASTQ lines; a record holds X1 followed by the node tags applied in walk order, name, bases and qualities as QueryFields of FastqLines, and all eight unaligned fields; it passes on the walk's `fastq_path` |
| Encoding.GroupRecordFound | ont2cram.py:233-252 | for a group whose keys are all tagged, the record keeps the base name under X1, and it fails only on column, type or FASTQ problems |
| Encoding.GroupRecordAfterHeader | ont2cram.py:143-252 | the same, for the directory the header loop leaves |
| Encoding.RunStepsSpec | ont2cram.py:233-254 | a loop over items that carries state from one item to the next succeeds with every item's result, in order, or fails with the first failing item's error |
| Encoding.GroupRecordAt | ont2cram.py:233-254 | item i of the loop over read groups is GroupRecord of group i with the `fastq_path` the earlier groups left |
| Encoding.GroupsRecords | ont2cram.py:233-254 | record i is GroupRecord of group i, started from the `fastq_path` the earlier groups left (GroupRecordAt); otherwise the error of the first failing group |
| Encoding.FileRecords | ont2cram.py:229-254 | a file without top-level nodes stops the run; otherwise there is one record per read group (as many as top-level groups for a file of many reads, else one), record i being GroupsRecords' record of group i, or the first failing group's error |
| Encoding.ReadGroups | ont2cram.py:229-231 | the read groups are the top-level groups for a file of many reads, and the file itself otherwise |

## Left out

- h5py file access and `visititems`: a walk is given as the sequence of nodes it visits, with their names, attributes and columns. Top-level names are given in iteration order. The text of a dataset is given by absolute name.
- pysam: the header dictionary and `AlignmentFile` writing are not modelled. A record is the value of the fields the program sets, and `set_tag` is a map update. pysam's own `ValueError`s on tag values are left out; only the failure of `get_tag_type` is modelled.
- `qualitystring_to_array`: the qualities are kept as the FASTQ line.
- numpy: `get_type(...).str`, `tolist()`, `repr` and the ascii decode are not modelled. A value is its dtype string and its rendering, and two values are equal when both agree. An attribute is never equal to a column's type string, so such a sighting does not count.
- Schema.ColumnStep: a column sighting whose key holds an attribute stops the run with NotATypeCode. The program would hand the stored value to `types_equal`, which fails or compares it as text depending on its numpy type.
- Scalar datasets, for which `get_column` returns a bare value instead of an array, are not modelled; every column is a list of rows.
- Bytes datasets: the text of an embedded FASTQ dataset is split with `str.splitlines`, while bytes use fewer line breaks.
- ReadPath.RemoveReadNumber: `\w` and `\d` are ASCII. Python's `re` also accepts other Unicode letters and digits there, and its `re.I` folds some non-ASCII letters.
- File reading, directory listing, argparse, tqdm, `exit_if_not_dir` and `get_list_of_fast5_files` are I/O, and the model takes their results as inputs. The external FASTQ's file name is computed by `os.path` calls, so it is also left out; the file's text is an input.
- `sys.exit` and uncaught exceptions (KeyError, AssertionError, IndexError, StopIteration) end the run. Each one is an error value naming its cause.
- `__init__.py` holds only package metadata.
- Schema.AttrStep: a sighting counts when its dtype and rendering equal the stored value's, not by numpy's `==`. The two differ: int32 5 and int64 5, or 1 and 1.0, are equal in the program and different here; 0.0 and -0.0 are equal in the program and render differently here; NaN never equals itself in the program, while here its rendering "nan" does; and an attribute holding several elements makes the program's `==` raise ValueError, while here it is counted like any other value.
- Attributes of the file root and of a read group itself are discovered, because discovery visits "/" before `visititems`. They are never written by the encoding pass, because `visititems` does not visit the group it starts from. GroupRecord follows the program here.

Where the program and its description differ, the model follows the program:

- counts are per sighting, not per file;
- an embedded FASTQ is not checked for four lines;
- `fastq_path` is set once per file, not once per read group (FastqPathCarriesOver);
- the external FASTQ is the same for every group of a file (ExternalFastqShared).
