/**
 * getIndexes of src/Annotation.java: for every raw paper whose key names an
 * annotation file, join the paper's lines into one text and walk that file's
 * records in order, giving each a start and end offset into the text. Six
 * locals carry over from one record to the next, and each record is handled
 * by the first of four rules that applies:
 *   1. the same tag again (same term, same block),
 *   2. an extension of the previous term at the same word,
 *   3. a back-reference to one of the last two terms a few words on,
 *   4. a new term, searched for from the previous end offset.
 *
 * `Step` is one iteration of that loop as a function of the carried state and
 * `Resolve` the whole walk; `ResolveDocument` is the loop itself, writing the
 * offsets into the Annotation objects, and `GetIndexes` the loop over papers.
 */
module Resolver {
  import opened JavaLang
  import opened AnnotationRecord

  // ---------------------------------------------------------------------------
  // The rewrite table

  /** Terms Textpresso reports that do not occur literally in the paper, and
      the literal text searched for instead. */
  const REWRITES: seq<(string, string)> := [
    ("poly _ORB_ A", "poly"),
    ("ATP-binding cassette _ORB_ ABC", "ATP-binding cassette"),
    ("A-specific", "A\U{03B2}-specific")]

  /** The replacement of the first entry for `term`, or `term` itself. */
  function Lookup(table: seq<(string, string)>, term: string): string
  {
    if table == [] then term
    else if table[0].0 == term then table[0].1
    else Lookup(table[1..], term)
  }

  /** The switch on the term in getIndexes. */
  function Rewrite(term: string): string
  {
    Lookup(REWRITES, term)
  }

  // ---------------------------------------------------------------------------
  // One record

  /** The six locals getIndexes carries from one record of a paper to the
      next: lastannoterm, termbeforelastannoterm, tempstartindex,
      tempendindex, lastcount and lastsecwordnum. */
  datatype Carried = Carried(
    lastTerm: string,
    termBeforeLast: string,
    tempStart: int,
    tempEnd: int,
    lastCount: int,
    lastSecWordNum: int)

  /** Their values at the start of every paper. */
  const FRESH := Carried("", "", 0, 0, 0, -2)

  datatype Rule = Repeat | Extension | BackReference | NewTerm

  /** secwordnum-1, secwordnum-2 or secwordnum-3 equals lastsecwordnum, with
      Java's 32-bit subtraction. */
  predicate Follows(secWordNum: int, last: int)
  {
    Wrap(secWordNum - 1) == last || Wrap(secWordNum - 2) == last || Wrap(secWordNum - 3) == last
  }

  /** The first rule whose condition holds, for the rewritten term. */
  function Classify(c: Carried, term: string, annoCount: int, secWordNum: int): Rule
  {
    if term == c.lastTerm && annoCount == c.lastCount then Repeat
    else if Contains(term, c.lastTerm) && secWordNum == c.lastSecWordNum then Extension
    else if (Contains(c.lastTerm, term) || Contains(c.termBeforeLast, term))
            && Follows(secWordNum, c.lastSecWordNum) then BackReference
    else NewTerm
  }

  function RuleOf(c: Carried, r: Record): Rule
  {
    Classify(c, Rewrite(r.term), r.annoCount, r.secWordNum)
  }

  /** The offsets one record receives and the locals after it. */
  datatype Outcome = Outcome(start: int, end: int, next: Carried)

  /** One iteration of the loop over a paper's records, for a record with
      the given term, block number and section word number. */
  function Step(text: string, c: Carried, term: string, annoCount: int, secWordNum: int): Outcome
  {
    Apply(text, c, Rewrite(term), annoCount, secWordNum)
  }

  /** The rule for a rewritten term `t`, applied. The end offsets are Java int
      sums, so they wrap. */
  function Apply(text: string, c: Carried, t: string, annoCount: int, secWordNum: int): Outcome
  {
    match Classify(c, t, annoCount, secWordNum)
    case Repeat =>
      Outcome(c.tempStart, c.tempEnd, c)
    case Extension =>
      var e := Wrap(c.tempStart + |t|);
      Outcome(c.tempStart, e, c.(lastTerm := t, termBeforeLast := c.lastTerm, tempEnd := e))
    case BackReference =>
      var s := IndexOf(text, t, c.tempStart);
      Outcome(s, Wrap(s + |t|),
              c.(lastTerm := t, termBeforeLast := c.lastTerm, tempStart := s,
                 lastSecWordNum := secWordNum))
    case NewTerm =>
      var s := IndexOf(text, t, c.tempEnd);
      var e := Wrap(s + |t|);
      Outcome(s, e, Carried(t, c.lastTerm, s, e, annoCount, secWordNum))
  }

  function StepRecord(text: string, c: Carried, r: Record): Outcome
  {
    Step(text, c, r.term, r.annoCount, r.secWordNum)
  }

  /** The body of that loop on the six locals: the rule that applies, the
      offsets it gives the record and the locals after it. */
  method Advance(text: string, c: Carried, annoTerm: string, annoCount: int, secWordNum: int)
    returns (start: int, end: int, next: Carried)
    ensures Outcome(start, end, next) == Step(text, c, annoTerm, annoCount, secWordNum)
  {
    var lastTerm, termBeforeLast := c.lastTerm, c.termBeforeLast;
    var tempStart, tempEnd, lastCount, lastSecWordNum := c.tempStart, c.tempEnd, c.lastCount, c.lastSecWordNum;
    var term := Rewrite(annoTerm);
    ghost var rule := Classify(c, term, annoCount, secWordNum);
    if term == lastTerm && annoCount == lastCount {
      assert rule == Repeat;
      start, end := tempStart, tempEnd;
    } else if Contains(term, lastTerm) && secWordNum == lastSecWordNum {
      assert rule == Extension;
      start := tempStart;
      tempEnd := Wrap(tempStart + |term|);
      end := tempEnd;
      termBeforeLast, lastTerm := lastTerm, term;
    } else if (Contains(lastTerm, term) || Contains(termBeforeLast, term))
              && (Wrap(secWordNum - 1) == lastSecWordNum || Wrap(secWordNum - 2) == lastSecWordNum
                  || Wrap(secWordNum - 3) == lastSecWordNum) {
      assert rule == BackReference;
      tempStart := IndexOf(text, term, tempStart);
      start, end := tempStart, Wrap(tempStart + |term|);
      termBeforeLast, lastTerm, lastSecWordNum := lastTerm, term, secWordNum;
    } else {
      assert rule == NewTerm;
      var lastIndex := tempEnd;
      tempStart := IndexOf(text, term, lastIndex);
      tempEnd := Wrap(tempStart + |term|);
      start, end := tempStart, tempEnd;
      termBeforeLast, lastTerm, lastCount, lastSecWordNum := lastTerm, term, annoCount, secWordNum;
    }
    next := Carried(lastTerm, termBeforeLast, tempStart, tempEnd, lastCount, lastSecWordNum);
  }

  /** The record with the offsets of an outcome written in. */
  function Place(r: Record, o: Outcome): Record
  {
    r.(startIndex := At(o.start), endIndex := At(o.end))
  }

  // ---------------------------------------------------------------------------
  // One paper

  /** The records from the current one on, resolved with the locals `c`. */
  function ResolveFrom(text: string, c: Carried, rs: seq<Record>): (r: seq<Record>)
    ensures |r| == |rs|
    decreases |rs|
  {
    if rs == [] then []
    else
      var o := StepRecord(text, c, rs[0]);
      [Place(rs[0], o)] + ResolveFrom(text, o.next, rs[1..])
  }

  /** A paper's records after resolution, starting from fresh locals. */
  function Resolve(text: string, rs: seq<Record>): seq<Record>
  {
    ResolveFrom(text, FRESH, rs)
  }

  /** Resolving one more record of a paper. */
  lemma ResolveFromStep(text: string, c: Carried, rs: seq<Record>, i: nat)
    requires i < |rs|
    ensures ResolveFrom(text, c, rs[i..])
            == [Place(rs[i], StepRecord(text, c, rs[i]))]
               + ResolveFrom(text, StepRecord(text, c, rs[i]).next, rs[i + 1..])
  {
    assert rs[i..][1..] == rs[i + 1..];
  }

  /** setStartIndex and setEndIndex with Integer.toString of the offsets. */
  method SetOffsets(a: Annotation, start: int, end: int)
    modifies a
    ensures a.Value() == old(a.Value()).(startIndex := At(start), endIndex := At(end))
  {
    a.startIndex := At(start);
    a.endIndex := At(end);
  }

  /** One turn of the loop over a paper's list: the rule applied to the
      object `a`, which holds `r`, with the locals `c`; its offsets are
      written into it. */
  method ResolveOne(text: string, c: Carried, a: Annotation, ghost r: Record) returns (next: Carried)
    requires a.Value() == r
    modifies a
    ensures a.Value() == Place(r, StepRecord(text, c, r)) && next == StepRecord(text, c, r).next
  {
    var start, end;
    start, end, next := Advance(text, c, a.term, a.annoCount, a.secWordNum);
    SetOffsets(a, start, end);
  }

  /** The loop invariant of ResolveDocument, carried over one record. */
  lemma ResolveDocumentStep(text: string, orig: seq<Record>, done: seq<Record>, c: Carried, i: nat)
    requires i < |orig| && Resolve(text, orig) == done + ResolveFrom(text, c, orig[i..])
    ensures var o := StepRecord(text, c, orig[i]);
      Resolve(text, orig) == (done + [Place(orig[i], o)]) + ResolveFrom(text, o.next, orig[i + 1..])
  {
    var o := StepRecord(text, c, orig[i]);
    ResolveFromStep(text, c, orig, i);
    Associative(done, [Place(orig[i], o)], ResolveFrom(text, o.next, orig[i + 1..]));
  }

  /** The loop over one paper's list of Annotation objects. */
  method ResolveDocument(text: string, list: seq<Annotation>)
    requires Distinct(list)
    modifies set a | a in list
    ensures Values(list) == Resolve(text, old(Values(list)))
  {
    ghost var orig := Values(list);
    var carried := FRESH;
    var i := 0;
    ghost var done: seq<Record> := [];
    while i < |list|
      invariant 0 <= i <= |list| && |done| == i
      invariant Resolve(text, orig) == done + ResolveFrom(text, carried, orig[i..])
      invariant forall j :: 0 <= j < |list| ==> list[j].Value() == if j < i then done[j] else orig[j]
    {
      ResolveDocumentStep(text, orig, done, carried, i);
      done := done + [Place(orig[i], StepRecord(text, carried, orig[i]))];
      carried := ResolveOne(text, carried, list[i], orig[i]);
      i := i + 1;
    }
    assert Values(list) == done;
  }

  // ---------------------------------------------------------------------------
  // The paper's text

  /** The lines appended one after the other, with no separator. */
  function Join(lines: seq<string>): string
  {
    if lines == [] then "" else lines[0] + Join(lines[1..])
  }

  lemma {:induction false} JoinSnoc(lines: seq<string>, line: string)
    ensures Join(lines + [line]) == Join(lines) + line
  {
    if lines != [] {
      assert (lines + [line])[1..] == lines[1..] + [line];
      JoinSnoc(lines[1..], line);
    }
  }

  /** The StringBuilder loop: the first line, then every further line appended.
      An empty file makes the first nextLine throw. */
  method LoadText(lines: seq<string>) returns (r: Result<string, Crash>)
    ensures r == if lines == [] then Err(NoSuchElement) else Ok(Join(lines))
  {
    if lines == [] { return Err(NoSuchElement); }
    var text := lines[0];
    var k := 1;
    assert lines[..1] == [lines[0]];
    while k < |lines|
      invariant 1 <= k <= |lines|
      invariant text == Join(lines[..k])
    {
      JoinSnoc(lines[..k], lines[k]);
      assert lines[..k + 1] == lines[..k] + [lines[k]];
      text := text + lines[k];
      k := k + 1;
    }
    assert lines[..k] == lines;
    r := Ok(text);
  }

  // ---------------------------------------------------------------------------
  // All papers

  /** A raw text file: its path, and its lines, or None when opening it threw
      FileNotFoundException. */
  datatype RawFile = RawFile(path: string, lines: Option<seq<string>>)

  /** filen.substring(filen.length() - 12, filen.length()). */
  function RawKey(path: string): (r: Result<string, Crash>)
    ensures r.Ok? <==> |path| >= 12
    ensures r.Err? ==> r.error == IndexOutOfBounds
    ensures r.Ok? ==> |r.value| == 12 && path == path[..|path| - 12] + r.value
  {
    if |path| < 12 then Err(IndexOutOfBounds) else Ok(path[|path| - 12..])
  }

  /** The loop of getIndexes over the raw files in directory-listing order. A
      file whose key names no annotation file, or that cannot be opened, is
      passed over; any other resolves the list under its key afresh. */
  function ResolveAll(raws: seq<RawFile>, m: map<string, seq<Record>>)
    : Result<map<string, seq<Record>>, Crash>
    decreases |raws|
  {
    if raws == [] then Ok(m)
    else
      var f := raws[0];
      match RawKey(f.path)
      case Err(e) => Err(e)
      case Ok(key) =>
        if key !in m || f.lines.None? then ResolveAll(raws[1..], m)
        else if f.lines.value == [] then Err(NoSuchElement)
        else ResolveAll(raws[1..], m[key := Resolve(Join(f.lines.value), m[key])])
  }

  /** Resolving the list under `key` changes no other list of the map. */
  method ResolveKey(annos: map<string, seq<Annotation>>, key: string, text: string)
    requires AllDistinct(annos) && key in annos
    modifies Objects(annos)
    ensures Snapshot(annos) == old(Snapshot(annos))[key := Resolve(text, old(Snapshot(annos))[key])]
  {
    ghost var snap := Snapshot(annos);
    var list := annos[key];
    ResolveDocument(text, list);
    forall k | k in annos && k != key ensures Values(annos[k]) == snap[k] {
      forall x | 0 <= x < |annos[k]| ensures annos[k][x].Value() == snap[k][x] {
        assert annos[k][x] !in list;
      }
    }
    SnapshotReplace(annos, key, snap, Resolve(text, snap[key]));
  }

  /** getIndexes: the offsets are written into the objects of `annos`; the map
      itself is not changed. */
  method GetIndexes(annos: map<string, seq<Annotation>>, raws: seq<RawFile>)
    returns (crash: Option<Crash>)
    requires AllDistinct(annos)
    modifies Objects(annos)
    ensures ResolveAll(raws, old(Snapshot(annos)))
            == if crash.None? then Ok(Snapshot(annos)) else Err(crash.value)
  {
    var i := 0;
    while i < |raws|
      invariant 0 <= i <= |raws|
      invariant ResolveAll(raws, old(Snapshot(annos))) == ResolveAll(raws[i..], Snapshot(annos))
    {
      var f := raws[i];
      assert raws[i..][1..] == raws[i + 1..];
      if |f.path| < 12 { return Some(IndexOutOfBounds); }
      var key := f.path[|f.path| - 12..];
      if key in annos && f.lines.Some? {
        var loaded := LoadText(f.lines.value);
        if loaded.Err? { return Some(loaded.error); }
        ResolveKey(annos, key, loaded.value);
      }
      i := i + 1;
    }
    crash := None;
  }
}
