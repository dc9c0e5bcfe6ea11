/**
 * pullAnnos of src/Annotation.java: reads Textpresso annotation files line by
 * line and builds one Annotation per GO tag found inside a
 *   ## BOA ##
 *   <term>
 *   <section word number>
 *   ... tag lines ...
 *   ## EOA ##
 * block. The block counter is shared by all files and never reset.
 *
 * `Scan`/`InBlock` follow the scanner loop as functions over the remaining
 * lines; `ScanFile` and `PullAnnos` are the loops themselves, proved to build
 * exactly the records those functions describe.
 */
module Extractor {
  import opened JavaLang
  import opened AnnotationRecord

  const BOA := "## BOA ##"
  const EOA := "## EOA ##"
  /** Marker of a tag line that refers to the Gene Ontology. */
  const GO_SOURCE := "source='GO-v1.934'"

  // ---------------------------------------------------------------------------
  // One GO tag line

  datatype GoRef = GoRef(id: string, ref: string)

  /** ref.replaceAll("_", " "): every underscore becomes a space. */
  function Underscores(s: string): (r: string)
    ensures |r| == |s| && '_' !in r
    ensures forall i :: 0 <= i < |s| ==> r[i] == s[i] || (s[i] == '_' && r[i] == ' ')
  {
    if s == [] then []
    else [if s[0] == '_' then ' ' else s[0]] + Underscores(s[1..])
  }

  /** The GO id and ontology term of a tag line: the seven characters before
      the first '.', and the text from after that '.' up to the first ".2"
      found from the '.' on. A first '.' nearer the start than index 7, or no
      ".2" strictly after it, makes substring throw. */
  function ExtractGo(line: string): Result<GoRef, Crash>
  {
    var d := IndexOf(line, ".", 0);
    if d < 7 then Err(IndexOutOfBounds)
    else
      var p := IndexOf(line, ".2", d);
      if p < d + 1 then Err(IndexOutOfBounds)
      else Ok(GoRef("GO:" + line[d - 7..d], Underscores(line[d + 1..p])))
  }

  /** What ExtractGo promises, with `d` the first '.' and `p` the first ".2"
      from there: it succeeds exactly when 7 <= d < p; the id is "GO:" and
      the seven characters before the '.', none of them a '.'; the ref is the
      text between the '.' and the ".2" with no underscore left. */
  lemma ExtractGoSpec(line: string)
    ensures var r := ExtractGo(line); var d := IndexOf(line, ".", 0); var p := IndexOf(line, ".2", d);
      && (r.Ok? <==> 7 <= d < p)
      && (r.Err? ==> r.error == IndexOutOfBounds)
      && (r.Ok? ==> |r.value.id| == 10 && r.value.id == "GO:" + line[d - 7..d]
                    && '.' !in r.value.id[3..])
      && (r.Ok? ==> r.value.ref == Underscores(line[d + 1..p]) && '_' !in r.value.ref
                    && forall k :: d <= k < p ==> !MatchAt(line, ".2", k))
  {
    var d := IndexOf(line, ".", 0);
    IndexOfSpec(line, ".", 0);
    if d >= 7 {
      var p := IndexOf(line, ".2", d);
      IndexOfSpec(line, ".2", d);
      if p >= d + 1 {
        forall j | d - 7 <= j < d ensures line[j] != '.' {
          assert !MatchAt(line, ".", j);
          assert line[j..j + 1] == [line[j]];
        }
        assert ("GO:" + line[d - 7..d])[3..] == line[d - 7..d];
      }
    }
  }

  /** ExtractGo once the first '.' and the first ".2" after it are known. */
  lemma ExtractGoAt(line: string, d: int, p: int)
    requires 7 <= d < p && IndexOf(line, ".", 0) == d && IndexOf(line, ".2", d) == p
    ensures ExtractGo(line) == Ok(GoRef("GO:" + line[d - 7..d], Underscores(line[d + 1..p])))
  {
  }

  /** In a line whose first `d` characters hold no '.', the first '.' is at
      `d`. */
  lemma FirstDot(line: string, d: nat)
    requires d < |line| && line[d] == '.' && '.' !in line[..d]
    ensures IndexOf(line, ".", 0) == d
  {
    assert line[d..d + 1] == ".";
    forall j | 0 <= j < d ensures !MatchAt(line, ".", j) {
      assert line[j..j + 1] == [line[j]] && line[j] == line[..d][j];
    }
    IndexOfIs(line, ".", 0, d);
  }

  /** Where "." + refText + "." and then "2" sit in a line at `d`, and
      refText holds no ".2" and neither starts nor ends a ".2" with the dots
      around it, the first ".2" from `d` on is the one after refText. */
  lemma FirstRefEnd(line: string, d: nat, refText: string)
    requires d + |refText| + 3 <= |line|
    requires line[d..d + |refText| + 3] == "." + refText + ".2"
    requires !Contains("." + refText + ".", ".2")
    ensures IndexOf(line, ".2", d) == d + 1 + |refText|
  {
    var x := "." + refText + ".";
    var p := d + 1 + |refText|;
    assert line[d..d + |x|] == x by {
      assert line[d..d + |x|] == line[d..d + |refText| + 3][..|x|];
    }
    assert line[p..p + 2] == ".2" by {
      assert line[p..p + 2] == line[d..d + |refText| + 3][|x| - 1..];
    }
    ContainsSpec(x, ".2");
    forall k | d <= k < p ensures !MatchAt(line, ".2", k) {
      MatchInside(line, x, d, ".2", k);
    }
    IndexOfIs(line, ".2", d, p);
  }

  /** A tag line as Textpresso writes it: anything without a '.', the seven
      characters of the id, '.', the ontology term, ".2" and the rest. */
  lemma ExtractGoLine(head: string, digits: string, refText: string, tail: string)
    requires |digits| == 7 && '.' !in head && '.' !in digits
    requires !Contains("." + refText + ".", ".2")
    ensures ExtractGo(head + digits + "." + refText + ".2" + tail)
            == Ok(GoRef("GO:" + digits, Underscores(refText)))
  {
    var line := head + digits + "." + refText + ".2" + tail;
    var d := |head| + 7;
    var p := d + 1 + |refText|;
    assert line[..d] == head + digits && line[d] == '.';
    FirstDot(line, d);
    assert line[d..d + |refText| + 3] == "." + refText + ".2";
    FirstRefEnd(line, d, refText);
    assert line[d - 7..d] == digits;
    assert line[d + 1..p] == refText;
    ExtractGoAt(line, d, p);
  }

  // ---------------------------------------------------------------------------
  // The block grammar, as functions of the scanner's position

  datatype Extraction = Extraction(records: seq<Record>, count: int)

  function NewRecord(term: string, count: int, secWordNum: int, g: GoRef): Record
  {
    Record(term, g.id, g.ref, Unset, Unset, count, secWordNum)
  }

  /** The outer scanner loop with `i` the index of the next line to read,
      `count` the block counter and `acc` the records built so far. */
  function Scan(lines: seq<string>, i: nat, count: int, acc: seq<Record>)
    : Result<Extraction, Crash>
    requires i <= |lines|
    decreases |lines| - i, 1
  {
    if i == |lines| then Ok(Extraction(acc, count))
    else if lines[i] != BOA then Scan(lines, i + 1, count, acc)
    else if i + 3 > |lines| then Err(NoSuchElement)
    else match ParseInt(lines[i + 2])
      case None => Err(NumberFormat(lines[i + 2]))
      case Some(secWordNum) => InBlock(lines, i + 3, lines[i + 1], count + 1, secWordNum, acc)
  }

  /** The inner loop over the tag lines of one block: it reads the line at
      `j`, and stops after EOA. */
  function InBlock(lines: seq<string>, j: nat, term: string, count: int, secWordNum: int,
                   acc: seq<Record>): Result<Extraction, Crash>
    requires j <= |lines|
    decreases |lines| - j, 0
  {
    if j == |lines| then Err(NoSuchElement)
    else if lines[j] == EOA then Scan(lines, j + 1, count, acc)
    else if !Contains(lines[j], GO_SOURCE) then InBlock(lines, j + 1, term, count, secWordNum, acc)
    else match ExtractGo(lines[j])
      case Err(e) => Err(e)
      case Ok(g) => InBlock(lines, j + 1, term, count, secWordNum,
                            acc + [NewRecord(term, count, secWordNum, g)])
  }

  // ---------------------------------------------------------------------------
  // The loops

  /** A new Annotation holding one GO tag of the current block, filled in
      through the setters as pullAnnos does. */
  method NewTag(term: string, count: int, secWordNum: int, g: GoRef) returns (a: Annotation)
    ensures fresh(a) && a.Value() == NewRecord(term, count, secWordNum, g)
  {
    a := new Annotation();
    a.term := term;
    a.annoCount := count;
    a.secWordNum := secWordNum;
    a.id := g.id;
    a.ref := g.ref;
  }

  /** What the scanner reads after a BOA line: the term, the section word
      number and the tag lines up to EOA. `i0` is the index of the line after
      the BOA line, `acc` the records of the file so far; `block` holds the new
      objects, and `i` is the index of the line after EOA. */
  method ReadBlock(lines: seq<string>, i0: nat, count0: int, ghost acc: seq<Record>)
    returns (block: seq<Annotation>, i: nat, count: int, crash: Option<Crash>)
    requires 1 <= i0 <= |lines| && lines[i0 - 1] == BOA
    ensures Distinct(block) && forall a :: a in block ==> fresh(a)
    ensures crash.None? ==> i0 <= i <= |lines|
    ensures crash.None? ==>
      Scan(lines, i0 - 1, count0, acc) == Scan(lines, i, count, acc + Values(block))
    ensures crash.Some? ==> Scan(lines, i0 - 1, count0, acc) == Err(crash.value)
  {
    block, i, count, crash := [], i0, count0 + 1, None;
    // the nextLine for the term or the one for the section word number throws
    if i0 + 2 > |lines| { crash := Some(NoSuchElement); return; }
    var term := lines[i0];
    var parsed := ParseInt(lines[i0 + 1]);
    if parsed.None? { crash := Some(NumberFormat(lines[i0 + 1])); return; }
    block, i, crash := ReadTags(lines, i0 + 2, term, count, parsed.value, acc);
  }

  /** One tag line of a block: a GO line becomes a new Annotation appended
      to `block`, any other line is passed over; a malformed GO line throws. */
  method ReadTag(line: string, term: string, count: int, secwordnum: int, block: seq<Annotation>,
                 ghost recs: seq<Record>)
    returns (block': seq<Annotation>, crash: Option<Crash>)
    requires Distinct(block) && Values(block) == recs
    ensures crash.Some? <==> IsGoLine(line) && ExtractGo(line).Err?
    ensures crash.Some? ==> ExtractGo(line) == Err(crash.value)
    ensures crash.None? ==> Distinct(block') && Values(block') == recs + TagOf(line, term, count, secwordnum)
    ensures forall a :: a in block' ==> a in block || fresh(a)
  {
    block', crash := block, None;
    if Contains(line, GO_SOURCE) {
      var go := ExtractGo(line);
      if go.Err? { crash := Some(go.error); return; }
      var a := NewTag(term, count, secwordnum, go.value);
      ValuesAppend(block, a);
      block' := block + [a];
    } else {
      assert recs + TagOf(line, term, count, secwordnum) == recs;
    }
  }

  /** The inner loop of pullAnnos: the tag lines from index `i0` up to EOA,
      each GO line becoming a new Annotation; `i` is the index after EOA. */
  method ReadTags(lines: seq<string>, i0: nat, term: string, count: int, secwordnum: int,
                  ghost acc: seq<Record>)
    returns (block: seq<Annotation>, i: nat, crash: Option<Crash>)
    requires i0 <= |lines|
    ensures Distinct(block) && forall a :: a in block ==> fresh(a)
    ensures crash.None? ==> i0 < i <= |lines|
    ensures crash.None? ==>
      InBlock(lines, i0, term, count, secwordnum, acc) == Scan(lines, i, count, acc + Values(block))
    ensures crash.Some? ==> InBlock(lines, i0, term, count, secwordnum, acc) == Err(crash.value)
  {
    block, i, crash := [], i0, None;
    if i >= |lines| { crash := Some(NoSuchElement); return; }
    var line := lines[i];
    i := i + 1;
    assert acc + Values(block) == acc;
    while line != EOA
      invariant i0 < i <= |lines| && line == lines[i - 1] && crash.None?
      invariant Distinct(block) && forall a :: a in block ==> fresh(a)
      invariant InBlock(lines, i0, term, count, secwordnum, acc)
                == InBlock(lines, i - 1, term, count, secwordnum, acc + Values(block))
      decreases |lines| - i
    {
      ghost var recs := Values(block);
      block, crash := ReadTag(line, term, count, secwordnum, block, recs);
      if crash.Some? { block := []; return; }
      InBlockNext(lines, i - 1, term, count, secwordnum, acc, recs);
      if i >= |lines| { crash := Some(NoSuchElement); block := []; return; }
      line := lines[i];
      i := i + 1;
    }
  }

  /** The records of one annotation file. `count` comes in from the files read
      before and goes out to the next one; `crash` is the exception that ends
      the run, if any. */
  method ScanFile(lines: seq<string>, count0: int)
    returns (annos: seq<Annotation>, count: int, crash: Option<Crash>)
    ensures forall a :: a in annos ==> fresh(a)
    ensures Distinct(annos)
    ensures crash.None? ==> Scan(lines, 0, count0, []) == Ok(Extraction(Values(annos), count))
    ensures crash.Some? ==> Scan(lines, 0, count0, []) == Err(crash.value)
  {
    annos, count, crash := [], count0, None;
    var i := 0;
    while i < |lines|
      invariant 0 <= i <= |lines| && crash.None?
      invariant forall a :: a in annos ==> fresh(a)
      invariant Distinct(annos)
      invariant Scan(lines, 0, count0, []) == Scan(lines, i, count, Values(annos))
    {
      var line := lines[i];
      i := i + 1;
      if line == BOA {
        var block;
        block, i, count, crash := ReadBlock(lines, i, count, Values(annos));
        if crash.Some? { return; }
        DistinctConcat(annos, block);
        ValuesConcat(annos, block);
        annos := annos + block;
      }
    }
  }

  /** A file the program tried to read: `lines` is None when opening it threw
      FileNotFoundException. */
  datatype InputFile = InputFile(name: string, lines: Option<seq<string>>)

  /** What one annotation file yields with the block counter at `count`. A
      file that could not be opened gets an empty list and leaves the counter
      as it is. */
  function PullFile(f: InputFile, count: int): Result<Extraction, Crash>
  {
    match f.lines
    case None => Ok(Extraction([], count))
    case Some(lines) => Scan(lines, 0, count, [])
  }

  /** The file loop of pullAnnos over `files` (in directory-listing order),
      putting each file's list under its name. */
  function Pull(files: seq<InputFile>, m: map<string, seq<Record>>, count: int)
    : Result<map<string, seq<Record>>, Crash>
    decreases |files|
  {
    if files == [] then Ok(m)
    else
      match PullFile(files[0], count)
      case Err(e) => Err(e)
      case Ok(e) => Pull(files[1..], m[files[0].name := e.records], e.count)
  }

  /** One turn of the file loop of pullAnnos: the objects one annotation
      file yields. */
  method ReadFile(f: InputFile, count0: int) returns (annos: seq<Annotation>, count: int, crash: Option<Crash>)
    ensures Distinct(annos) && forall a :: a in annos ==> fresh(a)
    ensures PullFile(f, count0) == if crash.None? then Ok(Extraction(Values(annos), count)) else Err(crash.value)
  {
    annos, count, crash := [], count0, None;
    if f.lines.Some? {
      annos, count, crash := ScanFile(f.lines.value, count0);
    }
  }

  /** pullAnnos: the map from annotation-file name to its records. */
  method PullAnnos(files: seq<InputFile>) returns (r: Result<map<string, seq<Annotation>>, Crash>)
    ensures r.Ok? ==> AllDistinct(r.value) && forall a :: a in Objects(r.value) ==> fresh(a)
    ensures r.Ok? ==> Pull(files, map[], 0) == Ok(Snapshot(r.value))
    ensures r.Err? ==> Pull(files, map[], 0) == Err(r.error)
  {
    var goAnnos: map<string, seq<Annotation>> := map[];
    var count := 0;
    var i := 0;
    while i < |files|
      invariant 0 <= i <= |files|
      invariant AllDistinct(goAnnos) && forall a :: a in Objects(goAnnos) ==> fresh(a)
      invariant Pull(files, map[], 0) == Pull(files[i..], Snapshot(goAnnos), count)
    {
      var f := files[i];
      assert files[i..][0] == f && files[i..][1..] == files[i + 1..];
      ghost var snap := Snapshot(goAnnos);
      var annos, crash;
      annos, count, crash := ReadFile(f, count);
      if crash.Some? { return Err(crash.value); }
      assert Snapshot(goAnnos) == snap;
      AllDistinctPut(goAnnos, f.name, annos);
      SnapshotPut(goAnnos, f.name, annos);
      ghost var before := goAnnos;
      goAnnos := goAnnos[f.name := annos];
      forall a | a in Objects(goAnnos) ensures fresh(a) {
        assert a in Objects(before) || a in annos;
      }
      i := i + 1;
    }
    r := Ok(goAnnos);
  }

  // ---------------------------------------------------------------------------
  // Properties of the block grammar

  /** Lines with no BOA among them are read past without a record. */
  lemma {:induction false} ScanSkipsNoise(lines: seq<string>, i: nat, count: int, acc: seq<Record>)
    requires i <= |lines|
    requires forall k :: i <= k < |lines| ==> lines[k] != BOA
    ensures Scan(lines, i, count, acc) == Ok(Extraction(acc, count))
    decreases |lines| - i
  {
    if i < |lines| {
      ScanSkipsNoise(lines, i + 1, count, acc);
    }
  }

  /** A block's GO tag lines are the ones holding the GO source marker. */
  predicate IsGoLine(line: string)
  {
    Contains(line, GO_SOURCE)
  }

  /** Number of GO tag lines among `tags`. */
  function GoLineCount(tags: seq<string>): nat
  {
    if tags == [] then 0
    else (if IsGoLine(tags[0]) then 1 else 0) + GoLineCount(tags[1..])
  }

  /** The record one tag line yields: one for a well-formed GO line, none for
      any other line. (A malformed GO line ends the run instead; the lemmas
      below exclude it.) */
  function TagOf(line: string, term: string, count: int, secWordNum: int): seq<Record>
  {
    if IsGoLine(line) && ExtractGo(line).Ok? then [NewRecord(term, count, secWordNum, ExtractGo(line).value)]
    else []
  }

  /** Lines that can stand between a block's section word number and its EOA
      line: none of them is EOA, and none is a GO line that makes ExtractGo
      throw. */
  predicate TagLines(tags: seq<string>)
  {
    tags == [] || (tags[0] != EOA && (IsGoLine(tags[0]) ==> ExtractGo(tags[0]).Ok?) && TagLines(tags[1..]))
  }

  /** The records a block with tag lines `tags` yields, one per well-formed GO
      tag line, in line order; every one carries the block's term, number and
      section word number. */
  function Tags(tags: seq<string>, term: string, count: int, secWordNum: int): (r: seq<Record>)
    ensures TagLines(tags) ==> |r| == GoLineCount(tags)
    ensures forall k :: 0 <= k < |r| ==>
      r[k].term == term && r[k].annoCount == count && r[k].secWordNum == secWordNum
      && r[k].startIndex == Unset && r[k].endIndex == Unset
  {
    if tags == [] then []
    else TagOf(tags[0], term, count, secWordNum) + Tags(tags[1..], term, count, secWordNum)
  }

  /** The inner loop reading one tag line that is not EOA. */
  lemma InBlockLine(lines: seq<string>, j: nat, term: string, count: int, secWordNum: int,
                    acc: seq<Record>)
    requires j < |lines| && lines[j] != EOA
    requires IsGoLine(lines[j]) ==> ExtractGo(lines[j]).Ok?
    ensures InBlock(lines, j, term, count, secWordNum, acc)
            == InBlock(lines, j + 1, term, count, secWordNum, acc + TagOf(lines[j], term, count, secWordNum))
  {
    if !IsGoLine(lines[j]) {
      assert acc + TagOf(lines[j], term, count, secWordNum) == acc;
    }
  }

  /** InBlockLine with the records so far split in two. */
  lemma InBlockNext(lines: seq<string>, j: nat, term: string, count: int, secWordNum: int,
                    acc: seq<Record>, recs: seq<Record>)
    requires j < |lines| && lines[j] != EOA
    requires IsGoLine(lines[j]) ==> ExtractGo(lines[j]).Ok?
    ensures InBlock(lines, j, term, count, secWordNum, acc + recs)
            == InBlock(lines, j + 1, term, count, secWordNum, acc + (recs + TagOf(lines[j], term, count, secWordNum)))
  {
    InBlockLine(lines, j, term, count, secWordNum, acc + recs);
    Associative(acc, recs, TagOf(lines[j], term, count, secWordNum));
  }

  /** A block whose tag lines run from `j` up to the EOA line at `e`, none of
      them a malformed GO line, adds exactly the records `Tags` lists and goes
      on after the EOA line. */
  lemma {:induction false} BlockRecords(lines: seq<string>, j: nat, e: nat, term: string,
                                        count: int, secWordNum: int, acc: seq<Record>)
    requires j <= e < |lines| && lines[e] == EOA && TagLines(lines[j..e])
    ensures InBlock(lines, j, term, count, secWordNum, acc)
            == Scan(lines, e + 1, count, acc + Tags(lines[j..e], term, count, secWordNum))
    decreases e - j
  {
    var tags := lines[j..e];
    if j == e {
      assert acc + Tags(tags, term, count, secWordNum) == acc;
    } else {
      var head := TagOf(lines[j], term, count, secWordNum);
      var rest := lines[j + 1..e];
      InBlockLine(lines, j, term, count, secWordNum, acc);
      BlockRecords(lines, j + 1, e, term, count, secWordNum, acc + head);
      assert tags[0] == lines[j] && tags[1..] == rest;
      assert TagLines(rest);
      assert Tags(tags, term, count, secWordNum) == head + Tags(rest, term, count, secWordNum);
      Associative(acc, head, Tags(rest, term, count, secWordNum));
    }
  }

  /** A complete block: BOA, the term, a section word number, the tag lines
      and EOA. It numbers itself one above the counter and contributes one
      record per GO tag line. */
  lemma WholeBlock(lines: seq<string>, i: nat, e: nat, count: int, acc: seq<Record>)
    requires i + 3 <= e < |lines| && lines[i] == BOA && lines[e] == EOA
    requires ParseInt(lines[i + 2]).Some? && TagLines(lines[i + 3..e])
    ensures Scan(lines, i, count, acc)
            == Scan(lines, e + 1, count + 1,
                    acc + Tags(lines[i + 3..e], lines[i + 1], count + 1, ParseInt(lines[i + 2]).value))
  {
    BlockRecords(lines, i + 3, e, lines[i + 1], count + 1, ParseInt(lines[i + 2]).value, acc);
  }

  /** A block still open when the file ends (no EOA after it, no malformed GO
      line in it) makes nextLine throw. */
  lemma {:induction false} OpenBlock(lines: seq<string>, j: nat, term: string, count: int,
                                     secWordNum: int, acc: seq<Record>)
    requires j <= |lines| && TagLines(lines[j..])
    ensures InBlock(lines, j, term, count, secWordNum, acc) == Err(NoSuchElement)
    decreases |lines| - j
  {
    if j < |lines| {
      assert lines[j..][0] == lines[j] && lines[j..][1..] == lines[j + 1..];
      InBlockLine(lines, j, term, count, secWordNum, acc);
      OpenBlock(lines, j + 1, term, count, secWordNum, acc + TagOf(lines[j], term, count, secWordNum));
    }
  }

  /** The shape of every record a tag line yields. */
  predicate WellFormed(r: Record)
  {
    |r.id| == 10 && r.id[..3] == "GO:" && '_' !in r.ref
    && r.startIndex == Unset && r.endIndex == Unset
  }

  /** Block numbers never go down along a list. */
  predicate CountsOrdered(rs: seq<Record>)
  {
    forall a, b :: 0 <= a < b < |rs| ==> rs[a].annoCount <= rs[b].annoCount
  }

  /** What reading on preserves: the records so far stay in front, all records
      are well formed, block numbers never go down and never exceed the counter,
      the counter never goes down, and the records from position `n` on are
      numbered above `lo`. */
  predicate Grows(acc: seq<Record>, n: nat, lo: int, count: int, r: Result<Extraction, Crash>)
  {
    r.Ok? ==>
      var e := r.value;
      && count <= e.count
      && acc <= e.records
      && CountsOrdered(e.records)
      && (forall k :: 0 <= k < |e.records| ==> WellFormed(e.records[k]))
      && (forall k :: 0 <= k < |e.records| ==> e.records[k].annoCount <= e.count)
      && (forall k :: n <= k < |e.records| ==> lo < e.records[k].annoCount)
  }

  predicate Invariant(acc: seq<Record>, n: nat, lo: int, count: int)
  {
    && n <= |acc|
    && CountsOrdered(acc)
    && (forall k :: 0 <= k < |acc| ==> WellFormed(acc[k]))
    && (forall k :: 0 <= k < |acc| ==> acc[k].annoCount <= count)
    && (forall k :: n <= k < |acc| ==> lo < acc[k].annoCount)
  }

  lemma {:induction false} ScanGrows(lines: seq<string>, i: nat, lo: int, count: int,
                                     acc: seq<Record>, n: nat)
    requires i <= |lines| && lo <= count && Invariant(acc, n, lo, count)
    ensures Grows(acc, n, lo, count, Scan(lines, i, count, acc))
    decreases |lines| - i, 1
  {
    if i < |lines| {
      if lines[i] != BOA {
        ScanGrows(lines, i + 1, lo, count, acc, n);
      } else if i + 3 <= |lines| && ParseInt(lines[i + 2]).Some? {
        InBlockGrows(lines, i + 3, lines[i + 1], lo, count + 1, ParseInt(lines[i + 2]).value, acc, n);
      }
    }
  }

  lemma {:induction false} InBlockGrows(lines: seq<string>, j: nat, term: string, lo: int,
                                        count: int, secWordNum: int, acc: seq<Record>, n: nat)
    requires j <= |lines| && lo < count && Invariant(acc, n, lo, count)
    ensures Grows(acc, n, lo, count, InBlock(lines, j, term, count, secWordNum, acc))
    decreases |lines| - j, 0
  {
    if j < |lines| {
      if lines[j] == EOA {
        ScanGrows(lines, j + 1, lo, count, acc, n);
      } else if !Contains(lines[j], GO_SOURCE) {
        InBlockGrows(lines, j + 1, term, lo, count, secWordNum, acc, n);
      } else if ExtractGo(lines[j]).Ok? {
        var rec := NewRecord(term, count, secWordNum, ExtractGo(lines[j]).value);
        var acc' := acc + [rec];
        assert WellFormed(rec);
        assert Invariant(acc', n, lo, count);
        InBlockGrows(lines, j + 1, term, lo, count, secWordNum, acc', n);
      }
    }
  }

  /** One annotation file read with the counter at `count`: its records are
      well formed, numbered above `count` and no higher than the counter it
      hands on, in non-decreasing order, and the counter never goes down. */
  lemma ScanFileRecords(lines: seq<string>, count: int)
    ensures Grows([], 0, count, count, Scan(lines, 0, count, []))
  {
    ScanGrows(lines, 0, count, count, [], 0);
  }

  function Names(files: seq<InputFile>): set<string>
  {
    set f | f in files :: f.name
  }

  /** pullAnnos puts a list under every file's name, and a list it puts
      while the counter stands at `count` holds only well-formed records
      numbered above it. */
  lemma {:induction false} PullNumbersAbove(files: seq<InputFile>, m: map<string, seq<Record>>, count: int)
    ensures var r := Pull(files, m, count);
      r.Ok? ==>
        && r.value.Keys == m.Keys + Names(files)
        && forall k :: k in r.value && (k !in m || r.value[k] != m[k]) ==>
             forall x :: 0 <= x < |r.value[k]| ==>
               count < r.value[k][x].annoCount && WellFormed(r.value[k][x])
    decreases |files|
  {
    if files != [] {
      var f := files[0];
      assert Names(files) == {f.name} + Names(files[1..]) by {
        assert forall g :: g in files <==> g == f || g in files[1..];
      }
      if f.lines.Some? {
        ScanFileRecords(f.lines.value, count);
      }
      match PullFile(f, count)
      case Err(_) =>
      case Ok(e) =>
        PullNumbersAbove(files[1..], m[f.name := e.records], e.count);
    }
  }

  /** No two files share a name, as in one directory listing. */
  predicate DistinctNames(files: seq<InputFile>)
  {
    forall i, j :: 0 <= i < j < |files| ==> files[i].name != files[j].name
  }

  /** Every record of `a` has a lower block number than every record of `b`. */
  predicate NumberedBefore(a: seq<Record>, b: seq<Record>)
  {
    forall x, y :: 0 <= x < |a| && 0 <= y < |b| ==> a[x].annoCount < b[y].annoCount
  }

  /** A list under a name no file of `files` has is left as it is. */
  lemma {:induction false} PullKeeps(files: seq<InputFile>, m: map<string, seq<Record>>, count: int, k: string)
    requires k !in Names(files)
    ensures var r := Pull(files, m, count);
      r.Ok? ==> (k in r.value <==> k in m) && (k in m ==> r.value[k] == m[k])
    decreases |files|
  {
    if files != [] {
      var f := files[0];
      assert f in files;
      assert k !in Names(files[1..]) by {
        forall g | g in files[1..] ensures g.name != k {
          assert g in files;
        }
      }
      match PullFile(f, count)
      case Err(_) =>
      case Ok(e) =>
        PullKeeps(files[1..], m[f.name := e.records], e.count, k);
    }
  }

  /** Every file has a list in `r`, holding records numbered above `count`. */
  predicate ListedAbove(files: seq<InputFile>, r: map<string, seq<Record>>, count: int)
  {
    forall j :: 0 <= j < |files| ==>
      files[j].name in r && forall y :: 0 <= y < |r[files[j].name]| ==> count < r[files[j].name][y].annoCount
  }

  /** The lists of earlier files are numbered below those of later ones. */
  predicate ListedInOrder(files: seq<InputFile>, r: map<string, seq<Record>>)
  {
    forall i, j :: 0 <= i < j < |files| ==>
      files[i].name in r && files[j].name in r && NumberedBefore(r[files[i].name], r[files[j].name])
  }

  /** A first file numbered in (count, mid] in front of files numbered above
      `mid` and in order. */
  lemma ListedCons(files: seq<InputFile>, r: map<string, seq<Record>>, count: int, mid: int)
    requires files != [] && files[0].name in r && count <= mid
    requires forall x :: 0 <= x < |r[files[0].name]| ==> count < r[files[0].name][x].annoCount <= mid
    requires ListedAbove(files[1..], r, mid) && ListedInOrder(files[1..], r)
    ensures ListedAbove(files, r, count) && ListedInOrder(files, r)
  {
    var rest := files[1..];
    forall j | 0 < j < |files| ensures files[j] == rest[j - 1] {
    }
  }

  /** The block counter runs on from file to file: every record of a later
      file is numbered above every record of an earlier one, and all of them
      above the counter the loop starts with. */
  lemma {:induction false} PullNeverResets(files: seq<InputFile>, m: map<string, seq<Record>>, count: int)
    requires DistinctNames(files)
    ensures var r := Pull(files, m, count);
      r.Ok? ==> ListedAbove(files, r.value, count) && ListedInOrder(files, r.value)
    decreases |files|
  {
    var r := Pull(files, m, count);
    if files != [] && r.Ok? {
      var f, rest := files[0], files[1..];
      if f.lines.Some? {
        ScanFileRecords(f.lines.value, count);
      }
      var e := PullFile(f, count).value;
      var m' := m[f.name := e.records];
      assert r == Pull(rest, m', e.count);
      assert DistinctNames(rest) by {
        forall i, j | 0 <= i < j < |rest| ensures rest[i].name != rest[j].name {
          assert rest[i] == files[i + 1] && rest[j] == files[j + 1];
        }
      }
      assert f.name !in Names(rest) by {
        forall g | g in rest ensures g.name != f.name {
          var j :| 0 <= j < |rest| && rest[j] == g;
          assert files[j + 1] == g;
        }
      }
      PullKeeps(rest, m', e.count, f.name);
      PullNeverResets(rest, m', e.count);
      ListedCons(files, r.value, count, e.count);
    }
  }
}
