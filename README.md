# Textpresso GO annotations, modelled in Dafny

This project models `src/Annotation.java`. That program does three things:

- It reads the annotation files Textpresso writes and pulls out every Gene
  Ontology (GO) tag (`pullAnnos`).
- It finds each tagged term in the paper's raw text and stores a start and an
  end offset in the tag (`getIndexes`).
- It writes one tab-separated file per paper (`writeOut`).

The model keeps the program's shape:

- `Annotation` is a class whose fields are written in place.
- The scanner loops and the offset loop are `while` loops. Each is proved
  against a function that describes its result: `Scan`/`InBlock`/`Pull`
  describe extraction and `Step`/`ResolveFrom`/`ResolveAll` describe
  resolution.
- The properties the program relies on are lemmas about those functions.

Modules:

- `JavaLang` (java_lang.dfy): `String.indexOf` and `contains`,
  `Integer.parseInt` and `toString`, and 32-bit int wrap-around. It also holds
  the unchecked exceptions that end a run.
- `AnnotationRecord` (record.dfy): the `Annotation` class, its value `Record`,
  and the map from file name to list of objects.
- `Extractor` (extractor.dfy): `pullAnnos` and the GO id and reference of one
  tag line.
- `Resolver` (resolver.dfy): `getIndexes`, covering the rewrite table, the six
  carried locals, the four rules, the text join and the raw-file key.
- `ResolverFacts` (resolver_facts.dfy): what the rules, the walk over a paper
  and the walk over all papers promise.
- `Writer` (writer.dfy): `writeOut`'s file names and lines, and reading a row
  back.
- `Pipeline` (pipeline.dfy): `main`, the three steps in a row.

Where the code's behaviour is easy to misread, the model does what the code
does:

- **The text join.** A paper's lines are joined with no separator, as the
  `StringBuilder` loop does (src/Annotation.java:133-136).
- **Exceptions end the whole run.** No handler catches the exceptions below.
  The readers in `pullAnnos` and `getIndexes` catch only
  `FileNotFoundException`. The handlers in `writeOut` catch only
  `FileNotFoundException`, `UnsupportedEncodingException` and `IOException`
  (src/Annotation.java:237-246). So each of these ends the run (a `Crash`
  result), not just one document:
  - an annotation file that ends inside a block (`NoSuchElement`);
  - a section word number that is not an int (`NumberFormat`);
  - a malformed GO line, a raw-file path shorter than 12 characters, or a key
    shorter than 4 characters (`IndexOutOfBounds`);
  - an empty raw-text file (`NoSuchElement` from the first `nextLine`).
- **What is not changed.** Rule 3 leaves the carried end offset and block
  number as they were. A term that is not found gets start -1 and end
  |term| - 1. Both are kept as written.

Offsets are strings in the source: "" until set, then `Integer.toString` of
an int. The model stores them as `Offset = Unset | At(i)`, and `OffsetText`
turns that back into the string that `writeOut` prints.

## Model

| member | source | states |
|---|---|---|
| JavaLang.IndexOfSpec | src/Annotation.java:178 | indexOf returns -1 or a match. A non-empty pattern gives the leftmost match at or after max(from, 0). An empty pattern gives min(max(from, 0), length). |
| JavaLang.ContainsSpec | src/Annotation.java:164 | `s.contains(t)` holds exactly when t occurs somewhere in s |
| JavaLang.Wrap | src/Annotation.java:169 | a Java int sum: always inside the int range, and equal to the mathematical sum when that fits |
| JavaLang.WrapCongruent | src/Annotation.java:176-177 | wrapping changes a value by a multiple of 2^32 only |
| JavaLang.ParseIntToString | src/Annotation.java:69 | parseInt reads back every int that Integer.toString writes |
| AnnotationRecord.Annotation.constructor | src/Annotation.java:12-19 | a new Annotation holds empty strings, unset offsets and zero counts |
| Extractor.Underscores | src/Annotation.java:83 | replaceAll("_", " ") keeps the length, keeps every other character, turns each '_' into ' ' and leaves no '_' |
| Extractor.ExtractGoSpec | src/Annotation.java:79-83 | the GO id and ref are found exactly when the first '.' is at d >= 7 and the first ".2" from d is after d. The id is "GO:" and the 7 characters before the '.', so it has length 10 and no '.' after "GO:". The ref is the text between with '_' turned into ' ', so it has no '_'. Any other line throws IndexOutOfBounds. |
| Extractor.ExtractGoLine | src/Annotation.java:79-83 | a line of the form head, 7 id characters, '.', ontology term, ".2", rest yields "GO:" and the id, and the term with '_' turned into ' ', provided the head and the id hold no '.' and "." + term + "." holds no ".2" (so the term holds no ".2" and does not start with '2'). Since the GO marker `source='GO-v1.934'` holds a '.', the id is right only when the marker comes after it on the line. |
| Extractor.NewTag | src/Annotation.java:74-86 | a new object holding the block's term, count and word number and the line's id and ref |
| Extractor.ReadTag | src/Annotation.java:73-89 | a GO line becomes one new object appended to the block. Other lines add nothing. It throws exactly on a malformed GO line. |
| Extractor.ReadTags | src/Annotation.java:70-91 | the inner scanner loop builds exactly the records InBlock describes and stops after EOA. It throws exactly when InBlock does. All objects are new and distinct. |
| Extractor.ReadBlock | src/Annotation.java:63-91 | a BOA block: the term, the section word number parsed, the counter raised by one, then the inner loop. The result is as Scan describes, including NoSuchElement and NumberFormat. |
| Extractor.ScanFile | src/Annotation.java:58-93 | the outer scanner loop over one file yields exactly Scan's records and counter, or Scan's exception |
| Extractor.ReadFile | src/Annotation.java:55-99 | one annotation file: its records, or an empty list and an unchanged counter when it cannot be opened |
| Extractor.PullAnnos | src/Annotation.java:46-102 | the map from file name to new, pairwise distinct objects, whose values are exactly Pull's; or Pull's exception |
| Extractor.ScanSkipsNoise | src/Annotation.java:59-63 | lines with no BOA among them yield no record and leave the counter as it is |
| Extractor.Tags | src/Annotation.java:72-89 | a block's records all carry the block's term, number and word number, with offsets unset. There is one record per GO line when none is malformed. |
| Extractor.BlockRecords | src/Annotation.java:72-91 | a block's tag lines up to EOA add exactly the Tags records, and scanning goes on after EOA |
| Extractor.WholeBlock | src/Annotation.java:63-91 | a complete block numbers its records one above the counter, raises the counter by exactly one, and adds one record per GO line |
| Extractor.OpenBlock | src/Annotation.java:90 | a block with no EOA before the end of the file and no malformed GO line throws NoSuchElement (a malformed GO line throws IndexOutOfBounds first) |
| Extractor.ScanFileRecords | src/Annotation.java:63-91 | one file's records are well formed (id of length 10 starting "GO:", no '_' in ref, offsets unset). They are numbered above the counter the file starts with, are in non-decreasing block order, and do not exceed the counter handed on. The counter never goes down. |
| Extractor.PullNumbersAbove | src/Annotation.java:48-99 | every file name gets a list, and a list put while the counter stands at some value holds only well-formed records numbered above that value |
| Extractor.PullKeeps | src/Annotation.java:99 | the file loop leaves the list under a name that no file has as it was |
| Extractor.PullNeverResets | src/Annotation.java:48-100 | the counter is never reset between files. For files with distinct names, every record of a later file has a higher block number than every record of an earlier file, and all are above the starting counter. |
| Resolver.Advance | src/Annotation.java:146-204 | one turn of the loop on the six locals gives the offsets and locals that Step defines |
| Resolver.ResolveOne | src/Annotation.java:139-204 | one object gets the offsets of its step written in, and nothing else of it changes |
| Resolver.ResolveDocument | src/Annotation.java:124-205 | the loop over one paper leaves every object holding its record resolved from fresh locals |
| Resolver.LoadText | src/Annotation.java:132-137 | the text is the lines joined with no separator; an empty file throws NoSuchElement |
| Resolver.RawKey | src/Annotation.java:118-119 | the key is the last 12 characters of the path; a shorter path throws |
| Resolver.ResolveKey | src/Annotation.java:120-206 | resolving one paper's list changes no other list of the map |
| Resolver.GetIndexes | src/Annotation.java:111-214 | the loop over raw files writes into the objects exactly the offsets ResolveAll defines, or ends with its exception |
| ResolverFacts.RewriteTable | src/Annotation.java:146-156 | exactly three terms are rewritten, to the given text; every other term is unchanged; rewriting is idempotent |
| ResolverFacts.RepeatRule | src/Annotation.java:159-162 | rule 1: the carried start and end, and no local changes |
| ResolverFacts.ExtensionRule | src/Annotation.java:164-174 | rule 2: start is the carried start and end is start + \|term\| (an int sum). The carried end moves there, and the start, block and word numbers stay. |
| ResolverFacts.BackReferenceRule | src/Annotation.java:176-188 | rule 3: start is indexOf(term, carried start), a match when found, and end is start + \|term\|. The carried start and word number move; the carried end and block number stay stale. |
| ResolverFacts.NewTermRule | src/Annotation.java:190-204 | rule 4: start is indexOf(term, carried end). When found it is at or after max(end, 0), a match, with no earlier match. When not found there is no match at all from there, and end is \|term\| - 1. All locals move. |
| ResolverFacts.FollowsWindow | src/Annotation.java:176-177 | the rule 3 window: the word number is 1 to 3 past the last one, or that minus 2^32 through wrap-around |
| ResolverFacts.EmptyLastTermExtends | src/Annotation.java:124-129 | after an empty last term (as at the start of a paper), any record at the same word number that is no repeat takes rule 2 |
| ResolverFacts.StepSane | src/Annotation.java:159-204 | every step gives a start in [-1, \|text\|] and an int end, and keeps those bounds on the carried locals |
| ResolverFacts.ResolveFrame | src/Annotation.java:139-205 | the walk keeps the list's length and order and each record's term, id, ref, block and word number. Each record gets a start in [-1, \|text\|] and an int end. |
| ResolverFacts.ResolvePaper | src/Annotation.java:124-205 | the same, for a paper walked from fresh locals |
| ResolverFacts.ResolveIgnoresOffsets | src/Annotation.java:139-142 | offsets already stored do not affect resolution |
| ResolverFacts.ResolveIdempotent | src/Annotation.java:139-205 | resolving a paper twice is resolving it once |
| ResolverFacts.BlockStarts | src/Annotation.java:190-204 | the first tag of a new block leaves locals under which the block's next tag repeats its offsets |
| ResolverFacts.BlockContinues | src/Annotation.java:159-174 | a further tag of the same block gets the same offsets and keeps that state |
| ResolverFacts.BlockOffsets | src/Annotation.java:159-174 | every tag of one block (same term, block number and word number; GO ids and refs may differ) gets the offsets the locals promise |
| ResolverFacts.BlockSharesOffsets | src/Annotation.java:159-204 | all GO tags of one annotation block get the same start and end, whatever their GO ids and refs, when the carried block number (lastcount) is not that block's number, as holds for the first record of every block in a list pullAnnos builds |
| ResolverFacts.TwoGoIds | src/Annotation.java:159-162 | two tags of one block with different GO ids and refs get the same offsets |
| Pipeline.BlockTagsShareOffsets | src/Annotation.java:72-89 | the records one block yields all get the same start and end when resolved from locals whose carried block number (lastcount) differs from that block's |
| ResolverFacts.NewTermAfterEnd | src/Annotation.java:191-197 | after rules 1, 2 or 4, a new term is searched for from the previous end: it is found at or after that end, or not at all, except that an empty term searched for from beyond the text's end is found at the text's end |
| ResolverFacts.BackReferenceKeepsEnd | src/Annotation.java:176-188 | rule 3 leaves the carried end as it was |
| ResolverFacts.RawKeyOfName | src/Annotation.java:118-120 | a raw file's key is its name exactly when the name is 12 characters long |
| ResolverFacts.ResolveAllFrame | src/Annotation.java:117-213 | getIndexes keeps the map's keys and each list's length and tags; a list with no raw file is left exactly as it was |
| ResolverFacts.ExtensionExcludesBackReference | src/Annotation.java:164-177 | the word-number conditions of rules 2 and 3 never hold together, so their order never decides a record |
| ResolverFacts.CellWall | src/Annotation.java:159-204 | in "cell wall cell" the tags cell, cell wall (same word), wall (two words on), cell (far on) take rules 4, 2, 3 and 4 and get 0/4, 0/9, 5/9 and 10/14 |
| ResolverFacts.CatDogCat | src/Annotation.java:124-204 | in "cat dog cat" the tags cat, cat (same block), dog, cat get 0/3, 0/3, 4/7 and 8/11 |
| ResolverFacts.NotFound | src/Annotation.java:194-198 | a term that does not occur gets start -1 and end \|term\| - 1 |
| Writer.OffsetText | src/Annotation.java:160-161 | an offset prints as "" exactly when unset, and never contains a tab |
| Writer.Table | src/Annotation.java:232-235 | the header line, then one row per record in list order |
| Writer.OutputPath | src/Annotation.java:224 | directory/key-minus-4-characters.tsv; a key shorter than 4 characters throws |
| Writer.WriteOut | src/Annotation.java:220-236 | one file per key with its path and table; the write fails exactly when some key is shorter than 4 |
| Writer.ReadRowOfRow | src/Annotation.java:234-235 | a row cut at its tabs gives back the record's offsets, id, term and ref, when those strings hold no tab and the offsets are ints (as every resolved offset is, by ResolverFacts.ResolveFrame) |
| Writer.UnsetRow | src/Annotation.java:16-17 | a record never resolved is written with both offset fields empty |
| Writer.OutputPathOfText | src/Annotation.java:224 | name.txt is written as name.tsv |
| Writer.WriteOne | src/Annotation.java:222-236 | a map with one record yields one file holding the header and that record's row |
| Writer.Doc1 | src/Annotation.java:224-235 | "doc1.txt" goes to "Output/GO/doc1.tsv"; a resolved record's row reads back as its fields |
| Pipeline.RunPipeline | src/Annotation.java:250-268 | main on objects gives exactly the files (or exception) that Run defines |
| Pipeline.ResolveAndWrite | src/Annotation.java:261-267 | resolving then writing gives one file per key with the header and one row per record |
| Pipeline.RunFiles | src/Annotation.java:250-268 | a run that ends normally writes one file per annotation file, with the header and one row per record extracted |
| Pipeline.RunUnresolved | src/Annotation.java:117-120 | an annotation file whose name is no raw file's key is written with every row starting with two tabs (offsets left empty) |

## Left out

- Directory listing, `Scanner`, `File`, `PrintWriter` and `main`'s fixed
  paths. These are I/O. The directory contents are parameters: lists of files
  with their lines, or `None` where opening throws `FileNotFoundException`.
  The written files are a result value.
- Line terminators and what `hasNextLine`/`nextLine` do with them. A file is
  its sequence of lines.
- The error messages printed by the `catch` blocks. Only their effect is
  modelled: an empty list, or a paper passed over.
- `HashMap` iteration order in `writeOut`. The output is a map from key to
  file, so two keys that give the same path (say `a.txt` and `a.doc`) are not
  modelled as overwriting each other. Which files were written before an
  exception is not modelled either.
- The state of the objects after an exception. The model reports the
  exception only.
- The regex engine behind `replaceAll("_", " ")`. It is modelled as a
  character substitution.
- UTF-16 code units. Strings are sequences of characters; "Aβ-specific" has
  11 of them.
- Write failures (`IOException` in `writeOut`).
- Extractor.ScanFileRecords: the block counter (`count++`,
  src/Annotation.java:67) is an unbounded integer here. The Java int would
  wrap after 2147483647 blocks in one run. The facts that the counter never
  goes down and that block numbers are in order (this lemma,
  Extractor.PullNeverResets) hold only below that bound.
- JavaLang.ParseInt: accepts only the ASCII digits '0' to '9'. Java's
  `Integer.parseInt` also accepts other Unicode decimal digits (for example
  Arabic-Indic digits). A section word number written in those digits gives
  `NumberFormat` in the model but a number in Java.
- Extractor.Tags: the one-record-per-GO-line count is stated only when no GO
  line in the block is malformed. Otherwise the run throws and no list
  exists.
- ResolverFacts.BackReferenceRule: "found at or after the carried start" is
  stated with an exception for an empty term searched for past the end of
  the text. Java's indexOf returns the text length there.
- ResolverFacts.NewTermRule: same exception as BackReferenceRule. The end
  |term| - 1 for a term not found is stated for terms shorter than 2^31.
- Writer.Doc1: states the output path and that the row reads back as the
  record's fields. It does not state the literal text of the row.
