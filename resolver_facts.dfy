/**
 * What getIndexes promises about the offsets it writes: the rewrite table, the
 * effect of each of the four rules on the record and on the carried locals,
 * the frame of the whole walk, and the bounds its offsets keep.
 */
module ResolverFacts {
  import opened JavaLang
  import opened AnnotationRecord
  import opened Resolver

  // ---------------------------------------------------------------------------
  // The rewrite table

  /** The table as the three cases of the switch. */
  lemma RewriteCases(term: string)
    ensures Rewrite(term)
            == if term == "poly _ORB_ A" then "poly"
               else if term == "ATP-binding cassette _ORB_ ABC" then "ATP-binding cassette"
               else if term == "A-specific" then "A\U{03B2}-specific"
               else term
  {
    var t := REWRITES;
    assert Lookup(t, term) == if t[0].0 == term then t[0].1 else Lookup(t[1..], term);
    assert Lookup(t[1..], term) == if t[1].0 == term then t[1].1 else Lookup(t[2..], term) by {
      assert t[1..][0] == t[1] && t[1..][1..] == t[2..];
    }
    assert Lookup(t[2..], term) == if t[2].0 == term then t[2].1 else Lookup(t[3..], term) by {
      assert t[2..][0] == t[2] && t[2..][1..] == t[3..];
    }
    assert t[3..] == [];
  }

  /** The switch rewrites exactly three terms, to the given text, leaves every
      other term alone, and rewriting twice is rewriting once. */
  lemma RewriteTable(term: string)
    ensures term == "poly _ORB_ A" ==> Rewrite(term) == "poly"
    ensures term == "ATP-binding cassette _ORB_ ABC" ==> Rewrite(term) == "ATP-binding cassette"
    ensures term == "A-specific" ==> Rewrite(term) == "A\U{03B2}-specific"
    ensures Rewrite(term) != term
            <==> term == "poly _ORB_ A" || term == "ATP-binding cassette _ORB_ ABC" || term == "A-specific"
    ensures Rewrite(Rewrite(term)) == Rewrite(term)
  {
    RewriteCases(term);
    var r := Rewrite(term);
    RewriteCases(r);
    if r != term {
      assert |r| == 4 || |r| == 20 || |r| == 11;
    }
  }

  // ---------------------------------------------------------------------------
  // The four rules

  /** Rule 1: the same term again in the same block gets the carried offsets,
      and the carried locals stay as they were. */
  lemma RepeatRule(text: string, c: Carried, term: string, annoCount: int, secWordNum: int)
    requires Rewrite(term) == c.lastTerm && annoCount == c.lastCount
    ensures Step(text, c, term, annoCount, secWordNum) == Outcome(c.tempStart, c.tempEnd, c)
  {
  }

  /** Rule 2: a term containing the previous one at the same word starts where
      the previous one started and ends |term| on; the carried end moves there
      and the block and word numbers stay. */
  lemma ExtensionRule(text: string, c: Carried, term: string, annoCount: int, secWordNum: int)
    requires var t := Rewrite(term);
      !(t == c.lastTerm && annoCount == c.lastCount)
      && Contains(t, c.lastTerm) && secWordNum == c.lastSecWordNum
    ensures var t := Rewrite(term); var o := Step(text, c, term, annoCount, secWordNum);
      && o.start == c.tempStart
      && o.end == Wrap(c.tempStart + |t|)
      && (IsInt(c.tempStart + |t|) ==> o.end == c.tempStart + |t|)
      && o.next == c.(lastTerm := t, termBeforeLast := c.lastTerm, tempEnd := o.end)
  {
  }

  /** Rule 3: a back-reference is searched for from the carried start; the
      carried start moves to what is found, while the carried end and block
      number are left as they were. */
  lemma BackReferenceRule(text: string, c: Carried, term: string, annoCount: int, secWordNum: int)
    requires var t := Rewrite(term);
      && !(t == c.lastTerm && annoCount == c.lastCount)
      && !(Contains(t, c.lastTerm) && secWordNum == c.lastSecWordNum)
      && (Contains(c.lastTerm, t) || Contains(c.termBeforeLast, t))
      && Follows(secWordNum, c.lastSecWordNum)
    ensures var t := Rewrite(term); var o := Step(text, c, term, annoCount, secWordNum);
      && o.start == IndexOf(text, t, c.tempStart)
      && (o.start != -1 ==>
            (ClampFrom(c.tempStart) <= o.start || o.start == |text|) && MatchAt(text, t, o.start))
      && o.end == Wrap(o.start + |t|)
      && o.next.tempStart == o.start
      && o.next.tempEnd == c.tempEnd && o.next.lastCount == c.lastCount
      && o.next.lastTerm == t && o.next.termBeforeLast == c.lastTerm
      && o.next.lastSecWordNum == secWordNum
  {
  }

  /** Rule 4: anything else is searched for from the carried end. What is
      found is the leftmost occurrence at or after that point; a term that is
      not found gets start -1 and end |term| - 1. All carried locals move. */
  lemma NewTermRule(text: string, c: Carried, term: string, annoCount: int, secWordNum: int)
    requires var t := Rewrite(term);
      && !(t == c.lastTerm && annoCount == c.lastCount)
      && !(Contains(t, c.lastTerm) && secWordNum == c.lastSecWordNum)
      && !((Contains(c.lastTerm, t) || Contains(c.termBeforeLast, t)) && Follows(secWordNum, c.lastSecWordNum))
    ensures var t := Rewrite(term); var o := Step(text, c, term, annoCount, secWordNum);
      && o.start == IndexOf(text, t, c.tempEnd)
      && (o.start != -1 ==>
            && (ClampFrom(c.tempEnd) <= o.start || o.start == |text|) && MatchAt(text, t, o.start)
            && forall k :: ClampFrom(c.tempEnd) <= k < o.start ==> !MatchAt(text, t, k))
      && (o.start == -1 ==> t != [] && forall k :: ClampFrom(c.tempEnd) <= k ==> !MatchAt(text, t, k))
      && (o.start == -1 && |t| <= INT_MAX ==> o.end == |t| - 1)
      && o.end == Wrap(o.start + |t|)
      && o.next == Carried(t, c.lastTerm, o.start, o.end, annoCount, secWordNum)
  {
  }

  /** The window of rule 3 in plain integers: the word number is one to three
      past the last one, or, wrapping around, 2^32 less than that. */
  lemma FollowsWindow(secWordNum: int, last: int)
    requires IsInt(secWordNum) && IsInt(last)
    ensures Follows(secWordNum, last)
            <==> 1 <= secWordNum - last <= 3 || 1 - TWO_32 <= secWordNum - last <= 3 - TWO_32
  {
    WrapOnce(secWordNum - 1);
    WrapOnce(secWordNum - 2);
    WrapOnce(secWordNum - 3);
  }

  /** The empty string is contained in every term, so after a term that is
      empty (as at the start of a paper) any record at the same word number
      that is no repeat takes rule 2. */
  lemma EmptyLastTermExtends(text: string, c: Carried, term: string, annoCount: int)
    requires c.lastTerm == [] && !(Rewrite(term) == [] && annoCount == c.lastCount)
    ensures Classify(c, Rewrite(term), annoCount, c.lastSecWordNum) == Extension
  {
    assert MatchAt(Rewrite(term), [], 0);
  }

  // ---------------------------------------------------------------------------
  // The walk over a paper

  /** What the carried locals keep through a paper: the start is -1 or an
      index into the text, the end is an int, and the remembered terms are
      already rewritten. */
  predicate Sane(text: string, c: Carried)
  {
    && -1 <= c.tempStart <= |text| && IsInt(c.tempEnd)
    && Rewrite(c.lastTerm) == c.lastTerm && Rewrite(c.termBeforeLast) == c.termBeforeLast
  }

  lemma FreshSane(text: string)
    ensures Sane(text, FRESH)
  {
    RewriteTable("");
  }

  /** Every step keeps the locals sane, and gives a start in the text or -1
      and an int end. */
  lemma StepSane(text: string, c: Carried, r: Record)
    requires Sane(text, c)
    ensures var o := StepRecord(text, c, r);
      Sane(text, o.next) && -1 <= o.start <= |text| && IsInt(o.end)
  {
    RewriteTable(r.term);
  }

  /** Resolution is a frame update: the list keeps its length and order, every
      record keeps its term, id, ref, block and word numbers, and gets a start
      in the text or -1, and an int end. */
  lemma {:induction false} ResolveFrame(text: string, c: Carried, rs: seq<Record>)
    requires Sane(text, c)
    ensures var r := ResolveFrom(text, c, rs);
      && |r| == |rs|
      && forall i :: 0 <= i < |rs| ==>
           && SameTag(r[i], rs[i])
           && r[i].startIndex.At? && -1 <= r[i].startIndex.index <= |text|
           && r[i].endIndex.At? && IsInt(r[i].endIndex.index)
    decreases |rs|
  {
    if rs != [] {
      var o := StepRecord(text, c, rs[0]);
      StepSane(text, c, rs[0]);
      ResolveFrame(text, o.next, rs[1..]);
      var r := ResolveFrom(text, c, rs);
      assert r == [Place(rs[0], o)] + ResolveFrom(text, o.next, rs[1..]);
      forall i | 0 <= i < |rs|
        ensures SameTag(r[i], rs[i])
        ensures r[i].startIndex.At? && -1 <= r[i].startIndex.index <= |text|
        ensures r[i].endIndex.At? && IsInt(r[i].endIndex.index)
      {
        if i > 0 {
          assert r[i] == ResolveFrom(text, o.next, rs[1..])[i - 1];
          assert rs[i] == rs[1..][i - 1];
        }
      }
    }
  }

  /** The same, for a whole paper. */
  lemma ResolvePaper(text: string, rs: seq<Record>)
    ensures var r := Resolve(text, rs);
      && |r| == |rs|
      && forall i :: 0 <= i < |rs| ==>
           && SameTag(r[i], rs[i])
           && r[i].startIndex.At? && -1 <= r[i].startIndex.index <= |text|
           && r[i].endIndex.At? && IsInt(r[i].endIndex.index)
  {
    FreshSane(text);
    ResolveFrame(text, FRESH, rs);
  }

  /** Lists that agree on everything but the offsets. */
  predicate SameTags(a: seq<Record>, b: seq<Record>)
  {
    |a| == |b| && forall i :: 0 <= i < |a| ==> SameTag(a[i], b[i])
  }

  /** Resolution reads no offsets: what was stored there before does not
      matter. */
  lemma {:induction false} ResolveIgnoresOffsets(text: string, c: Carried, a: seq<Record>, b: seq<Record>)
    requires SameTags(a, b)
    ensures ResolveFrom(text, c, a) == ResolveFrom(text, c, b)
    decreases |a|
  {
    if a != [] {
      assert SameTag(a[0], b[0]);
      assert SameTags(a[1..], b[1..]) by {
        forall i | 0 <= i < |a| - 1 ensures SameTag(a[1..][i], b[1..][i]) {
          assert SameTag(a[i + 1], b[i + 1]);
        }
      }
      var o := StepRecord(text, c, a[0]);
      ResolveIgnoresOffsets(text, o.next, a[1..], b[1..]);
    }
  }

  /** Resolving a paper a second time changes nothing. */
  lemma ResolveIdempotent(text: string, rs: seq<Record>)
    ensures Resolve(text, Resolve(text, rs)) == Resolve(text, rs)
  {
    ResolvePaper(text, rs);
    var r := Resolve(text, rs);
    assert SameTags(r, rs);
    ResolveIgnoresOffsets(text, FRESH, r, rs);
  }

  // ---------------------------------------------------------------------------
  // The tags of one annotation block

  /** The locals after the first tag of a block with rewritten term `t`, block
      number `count` and word `swn` was given `start` and `end`: the next tag
      of the block either repeats (rule 1) or extends (rule 2) to the same
      offsets. Rule 3 leaves the carried end stale, which the second disjunct
      allows for. */
  predicate WithinBlock(c: Carried, t: string, count: int, swn: int, start: int, end: int)
  {
    && c.lastTerm == t && c.tempStart == start
    && ((c.lastCount == count && c.tempEnd == end)
        || (c.lastCount != count && c.lastSecWordNum == swn && end == Wrap(start + |t|)))
  }

  /** The first tag of a block the locals have not seen yet. */
  lemma BlockStarts(text: string, c: Carried, r: Record)
    requires r.annoCount != c.lastCount
    ensures var o := StepRecord(text, c, r);
      WithinBlock(o.next, Rewrite(r.term), r.annoCount, r.secWordNum, o.start, o.end)
  {
  }

  /** A further tag of the same block gets the same offsets. */
  lemma BlockContinues(text: string, c: Carried, r: Record, start: int, end: int)
    requires WithinBlock(c, Rewrite(r.term), r.annoCount, r.secWordNum, start, end)
    ensures var o := StepRecord(text, c, r);
      && o.start == start && o.end == end
      && WithinBlock(o.next, Rewrite(r.term), r.annoCount, r.secWordNum, start, end)
  {
    var t := Rewrite(r.term);
    assert MatchAt(t, t, 0);
  }

  /** Two records from the same annotation block: the same term, block
      number and section word number. Their GO ids and refs may differ. */
  predicate SamePlace(a: Record, b: Record)
  {
    a.term == b.term && a.annoCount == b.annoCount && a.secWordNum == b.secWordNum
  }

  /** A non-empty list whose tags all carry the first one's term, block
      number and word number, as the GO tags of one block do. */
  predicate OneBlock(rs: seq<Record>)
  {
    rs != [] && forall i :: 0 <= i < |rs| ==> SamePlace(rs[i], rs[0])
  }

  lemma OneBlockTail(rs: seq<Record>)
    requires OneBlock(rs) && |rs| > 1
    ensures OneBlock(rs[1..]) && SamePlace(rs[1], rs[0])
  {
    var tail := rs[1..];
    forall i | 0 <= i < |tail| ensures SamePlace(tail[i], tail[0]) {
      assert SamePlace(rs[i + 1], rs[0]) && SamePlace(rs[1], rs[0]);
    }
  }

  /** Every record of `r` has the offsets `start` and `end`. */
  predicate SameOffsets(r: seq<Record>, start: int, end: int)
  {
    forall i :: 0 <= i < |r| ==> r[i].startIndex == At(start) && r[i].endIndex == At(end)
  }

  lemma SameOffsetsCons(x: Record, rest: seq<Record>, start: int, end: int)
    requires x.startIndex == At(start) && x.endIndex == At(end) && SameOffsets(rest, start, end)
    ensures SameOffsets([x] + rest, start, end)
  {
    var r := [x] + rest;
    forall i | 1 <= i < |r| ensures r[i] == rest[i - 1] {
    }
  }

  /** Every tag of a list with one term, block and word number gets the
      offsets the locals promise. */
  lemma {:induction false} BlockOffsets(text: string, c: Carried, rs: seq<Record>, start: int, end: int)
    requires OneBlock(rs)
    requires WithinBlock(c, Rewrite(rs[0].term), rs[0].annoCount, rs[0].secWordNum, start, end)
    ensures SameOffsets(ResolveFrom(text, c, rs), start, end)
    decreases |rs|
  {
    var o := StepRecord(text, c, rs[0]);
    BlockContinues(text, c, rs[0], start, end);
    if |rs| > 1 {
      OneBlockTail(rs);
      BlockOffsets(text, o.next, rs[1..], start, end);
    }
    SameOffsetsCons(Place(rs[0], o), ResolveFrom(text, o.next, rs[1..]), start, end);
  }

  /** All GO tags of one Textpresso annotation block get the same offsets,
      when the block is not the one the locals last searched for. */
  lemma BlockSharesOffsets(text: string, c: Carried, rs: seq<Record>)
    requires OneBlock(rs) && rs[0].annoCount != c.lastCount
    ensures var r := ResolveFrom(text, c, rs);
      forall i :: 0 <= i < |r| ==> r[i].startIndex == r[0].startIndex && r[i].endIndex == r[0].endIndex
  {
    var o := StepRecord(text, c, rs[0]);
    BlockStarts(text, c, rs[0]);
    if |rs| > 1 {
      OneBlockTail(rs);
      BlockOffsets(text, o.next, rs[1..], o.start, o.end);
    }
    SameOffsetsCons(Place(rs[0], o), ResolveFrom(text, o.next, rs[1..]), o.start, o.end);
  }

  /** Two GO tags of one "cat" block with different GO ids and refs get
      the same offsets, wherever "cat" lies in the text. */
  lemma TwoGoIds(text: string)
    ensures var x := Record("cat", "GO:0000001", "a", Unset, Unset, 1, 10);
      var y := Record("cat", "GO:0000002", "b", Unset, Unset, 1, 10);
      var r := Resolve(text, [x, y]);
      r[0].startIndex == r[1].startIndex && r[0].endIndex == r[1].endIndex
  {
    var x := Record("cat", "GO:0000001", "a", Unset, Unset, 1, 10);
    var y := Record("cat", "GO:0000002", "b", Unset, Unset, 1, 10);
    assert OneBlock([x, y]) by {
      assert SamePlace([x, y][1], [x, y][0]);
    }
    BlockSharesOffsets(text, FRESH, [x, y]);
  }

  // ---------------------------------------------------------------------------
  // Searching forward

  /** Rules 1, 2 and 4 leave the carried end at the end they gave the record,
      so a new term after them is searched for from there: it is found at or
      after that end, or not at all. Rule 3 is the exception (its end is not
      carried). */
  lemma NewTermAfterEnd(text: string, c: Carried, r1: Record, r2: Record)
    requires RuleOf(c, r1) != BackReference
    requires RuleOf(StepRecord(text, c, r1).next, r2) == NewTerm
    ensures var o1 := StepRecord(text, c, r1); var o2 := StepRecord(text, o1.next, r2);
      var t2 := Rewrite(r2.term);
      && o2.start == IndexOf(text, t2, o1.end)
      && (o2.start == -1 || ClampFrom(o1.end) <= o2.start || (t2 == [] && o2.start == |text|))
  {
  }

  /** After rule 3 the carried end is the one from before it. */
  lemma BackReferenceKeepsEnd(text: string, c: Carried, r: Record)
    requires RuleOf(c, r) == BackReference
    ensures StepRecord(text, c, r).next.tempEnd == c.tempEnd
  {
  }

  // ---------------------------------------------------------------------------
  // All papers

  /** The raw-text key of a file `name` in directory `dir` is its name
      exactly when the name is twelve characters long: only then can the
      annotation file of the same name receive offsets. */
  lemma RawKeyOfName(dir: string, name: string)
    ensures RawKey(dir + "/" + name) == Ok(name) <==> |name| == 12
  {
    var p := dir + "/" + name;
    if |name| == 12 {
      assert p[|p| - 12..] == name;
    }
  }

  /** The papers a raw file list resolves. */
  function Keys(raws: seq<RawFile>): set<string>
  {
    set f | f in raws && RawKey(f.path).Ok? :: RawKey(f.path).value
  }

  /** getIndexes keeps the map's keys and, under every key, the list's length
      and tags; a list whose key no raw file has is left exactly as it was. */
  lemma {:induction false} ResolveAllFrame(raws: seq<RawFile>, m: map<string, seq<Record>>)
    ensures ResolveAll(raws, m).Ok? ==>
      var m' := ResolveAll(raws, m).value;
      && m'.Keys == m.Keys
      && (forall k :: k in m ==> SameTags(m'[k], m[k]))
      && (forall k :: k in m && k !in Keys(raws) ==> m'[k] == m[k])
    decreases |raws|
  {
    if raws != [] {
      var f := raws[0];
      assert Keys(raws) == Keys(raws[1..]) + (if RawKey(f.path).Ok? then {RawKey(f.path).value} else {}) by {
        assert forall g :: g in raws <==> g == f || g in raws[1..];
      }
      match RawKey(f.path)
      case Err(_) =>
      case Ok(key) =>
        if key !in m || f.lines.None? {
          ResolveAllFrame(raws[1..], m);
        } else if f.lines.value != [] {
          var text := Join(f.lines.value);
          var m1 := m[key := Resolve(text, m[key])];
          ResolvePaper(text, m[key]);
          assert SameTags(m1[key], m[key]);
          ResolveAllFrame(raws[1..], m1);
          if ResolveAll(raws, m).Ok? {
            var m' := ResolveAll(raws, m).value;
            forall k | k in m ensures SameTags(m'[k], m[k]) {
              assert SameTags(m'[k], m1[k]);
              SameTagsTrans(m'[k], m1[k], m[k]);
            }
          }
        }
    }
  }

  lemma SameTagsTrans(a: seq<Record>, b: seq<Record>, c: seq<Record>)
    requires SameTags(a, b) && SameTags(b, c)
    ensures SameTags(a, c)
  {
    forall i | 0 <= i < |a| ensures SameTag(a[i], c[i]) {
      assert SameTag(a[i], b[i]) && SameTag(b[i], c[i]);
    }
  }

  // ---------------------------------------------------------------------------
  // A worked paper

  function Tag(term: string, count: int, secWordNum: int): Record
  {
    Record(term, "GO:0000001", "thing", Unset, Unset, count, secWordNum)
  }

  /** `Place` with the offsets given directly (the locals after them do not
      matter to the record). */
  function Placed(r: Record, start: int, end: int): Record
  {
    Place(r, Outcome(start, end, FRESH))
  }

  const CAT_DOG_CAT := "cat dog cat"

  lemma FirstCat()
    ensures Step(CAT_DOG_CAT, FRESH, "cat", 1, 10) == Outcome(0, 3, Carried("cat", "", 0, 3, 1, 10))
  {
    RewriteCases("cat");
    assert MatchAt(CAT_DOG_CAT, "cat", 0);
    assert Contains("cat", "") by { assert MatchAt("cat", "", 0); }
    assert !Contains("", "cat");
  }

  lemma Dog()
    ensures Step(CAT_DOG_CAT, Carried("cat", "", 0, 3, 1, 10), "dog", 2, 11)
            == Outcome(4, 7, Carried("dog", "cat", 4, 7, 2, 11))
  {
    RewriteCases("dog");
    assert MatchAt(CAT_DOG_CAT, "dog", 4);
    assert !MatchAt(CAT_DOG_CAT, "dog", 3) by { assert CAT_DOG_CAT[3] == ' '; }
    assert !Contains("", "dog") && !Contains("cat", "dog") && !Contains("dog", "cat");
  }

  lemma LastCat()
    ensures Step(CAT_DOG_CAT, Carried("dog", "cat", 4, 7, 2, 11), "cat", 3, 20)
            == Outcome(8, 11, Carried("cat", "dog", 8, 11, 3, 20))
  {
    RewriteCases("cat");
    assert MatchAt(CAT_DOG_CAT, "cat", 8);
    assert !MatchAt(CAT_DOG_CAT, "cat", 7) by { assert CAT_DOG_CAT[7] == ' '; }
    assert !Contains("cat", "dog") && !Contains("dog", "cat");
    assert !Follows(20, 11);
  }

  lemma Missing()
    ensures Step(CAT_DOG_CAT, FRESH, "zzz", 1, 5) == Outcome(-1, 2, Carried("zzz", "", -1, 2, 1, 5))
  {
    RewriteCases("zzz");
    assert Contains("zzz", "") by { assert MatchAt("zzz", "", 0); }
    assert !Contains("", "zzz");
    assert IndexOf(CAT_DOG_CAT, "zzz", 0) == -1 by {
      assert 'z' !in CAT_DOG_CAT;
      forall k | 0 <= k ensures !MatchAt(CAT_DOG_CAT, "zzz", k) {
        if k + 3 <= |CAT_DOG_CAT| {
          assert CAT_DOG_CAT[k..k + 3][0] == CAT_DOG_CAT[k];
        }
      }
    }
  }

  lemma SecondCat()
    ensures Step(CAT_DOG_CAT, Carried("cat", "", 0, 3, 1, 10), "cat", 1, 10)
            == Outcome(0, 3, Carried("cat", "", 0, 3, 1, 10))
  {
    RewriteCases("cat");
  }

  /** Resolving four records whose steps are known. */
  lemma FourSteps(text: string, c: Carried, rs: seq<Record>, os: seq<Outcome>)
    requires |rs| == 4 && |os| == 4 && StepRecord(text, c, rs[0]) == os[0]
    requires forall i :: 1 <= i < 4 ==> StepRecord(text, os[i - 1].next, rs[i]) == os[i]
    ensures ResolveFrom(text, c, rs)
            == [Place(rs[0], os[0]), Place(rs[1], os[1]), Place(rs[2], os[2]), Place(rs[3], os[3])]
  {
    assert StepRecord(text, os[0].next, rs[1]) == os[1];
    assert StepRecord(text, os[1].next, rs[2]) == os[2];
    assert StepRecord(text, os[2].next, rs[3]) == os[3];
    ResolveCons(text, os[2].next, rs[3], []);
    assert rs[3..] == [rs[3]] + [];
    ResolveCons(text, os[1].next, rs[2], rs[3..]);
    assert rs[2..] == [rs[2]] + rs[3..];
    ResolveCons(text, os[0].next, rs[1], rs[2..]);
    assert rs[1..] == [rs[1]] + rs[2..];
    ResolveCons(text, c, rs[0], rs[1..]);
    assert rs == [rs[0]] + rs[1..];
  }

  /** Resolving a list that starts with `r`. */
  lemma ResolveCons(text: string, c: Carried, r: Record, rest: seq<Record>)
    ensures var o := StepRecord(text, c, r);
      ResolveFrom(text, c, [r] + rest) == [Place(r, o)] + ResolveFrom(text, o.next, rest)
  {
    assert ([r] + rest)[1..] == rest;
  }

  /** In "cat dog cat", two tags of one "cat" block share offsets 0..3 (rule 4
      then rule 1), "dog" is searched for from 3, and a later "cat" too far
      on for rule 3 is searched for from the end of "dog". */
  lemma CatDogCat()
    ensures Resolve(CAT_DOG_CAT, [Tag("cat", 1, 10), Tag("cat", 1, 10), Tag("dog", 2, 11), Tag("cat", 3, 20)])
            == [Placed(Tag("cat", 1, 10), 0, 3), Placed(Tag("cat", 1, 10), 0, 3),
                Placed(Tag("dog", 2, 11), 4, 7), Placed(Tag("cat", 3, 20), 8, 11)]
  {
    var cat, dog, cat2 := Tag("cat", 1, 10), Tag("dog", 2, 11), Tag("cat", 3, 20);
    var c1 := Carried("cat", "", 0, 3, 1, 10);
    var c2 := Carried("dog", "cat", 4, 7, 2, 11);
    var c3 := Carried("cat", "dog", 8, 11, 3, 20);
    FirstCat();
    SecondCat();
    Dog();
    LastCat();
    FourSteps(CAT_DOG_CAT, FRESH, [cat, cat, dog, cat2],
              [Outcome(0, 3, c1), Outcome(0, 3, c1), Outcome(4, 7, c2), Outcome(8, 11, c3)]);
  }

  /** Rule 2 needs the same word number and rule 3 a word number one to
      three further on, so the two never compete for a record. */
  lemma ExtensionExcludesBackReference(secWordNum: int)
    ensures !Follows(secWordNum, secWordNum)
  {
    WrapCongruent(secWordNum - 1);
    WrapCongruent(secWordNum - 2);
    WrapCongruent(secWordNum - 3);
  }

  const CELL_WALL := "cell wall cell"

  lemma CellFirst()
    ensures Step(CELL_WALL, FRESH, "cell", 1, 10) == Outcome(0, 4, Carried("cell", "", 0, 4, 1, 10))
  {
    RewriteCases("cell");
    assert MatchAt(CELL_WALL, "cell", 0);
    assert Contains("cell", "") by { assert MatchAt("cell", "", 0); }
    assert !Contains("", "cell");
  }

  lemma CellWallExtends()
    ensures Step(CELL_WALL, Carried("cell", "", 0, 4, 1, 10), "cell wall", 2, 10)
            == Outcome(0, 9, Carried("cell wall", "cell", 0, 9, 1, 10))
  {
    RewriteCases("cell wall");
    assert MatchAt("cell wall", "cell", 0);
  }

  lemma WallBackReference()
    ensures Step(CELL_WALL, Carried("cell wall", "cell", 0, 9, 1, 10), "wall", 3, 12)
            == Outcome(5, 9, Carried("wall", "cell wall", 5, 9, 1, 12))
  {
    RewriteCases("wall");
    assert !Contains("wall", "cell wall");
    assert MatchAt("cell wall", "wall", 5);
    assert Follows(12, 10);
    assert MatchAt(CELL_WALL, "wall", 5);
    forall j | 0 <= j < 5 ensures !MatchAt(CELL_WALL, "wall", j) {
      assert CELL_WALL[j] != 'w';
      assert CELL_WALL[j..j + 4][0] == CELL_WALL[j];
    }
    IndexOfIs(CELL_WALL, "wall", 0, 5);
  }

  lemma CellAfterBackReference()
    ensures Step(CELL_WALL, Carried("wall", "cell wall", 5, 9, 1, 12), "cell", 4, 20)
            == Outcome(10, 14, Carried("cell", "wall", 10, 14, 4, 20))
  {
    RewriteCases("cell");
    assert !MatchAt("cell", "wall", 0) by { assert "cell"[0] != "wall"[0]; }
    IndexOfSpec("cell", "wall", 0);
    assert !Follows(20, 12);
    assert MatchAt(CELL_WALL, "cell", 10);
    assert !MatchAt(CELL_WALL, "cell", 9) by { assert CELL_WALL[9] == ' '; }
    IndexOfIs(CELL_WALL, "cell", 9, 10);
  }

  /** In "cell wall cell": "cell" is found at 0 (rule 4); "cell wall" at the
      same word extends it to 0..9 (rule 2); "wall" two words on is a
      back-reference, searched for from the carried start 0 and found at 5
      (rule 3); a later
      "cell" too far on for rule 3 is searched for from 9 (rule 4). */
  lemma CellWall()
    ensures Resolve(CELL_WALL, [Tag("cell", 1, 10), Tag("cell wall", 2, 10), Tag("wall", 3, 12), Tag("cell", 4, 20)])
            == [Placed(Tag("cell", 1, 10), 0, 4), Placed(Tag("cell wall", 2, 10), 0, 9),
                Placed(Tag("wall", 3, 12), 5, 9), Placed(Tag("cell", 4, 20), 10, 14)]
  {
    var c1 := Carried("cell", "", 0, 4, 1, 10);
    var c2 := Carried("cell wall", "cell", 0, 9, 1, 10);
    var c3 := Carried("wall", "cell wall", 5, 9, 1, 12);
    var c4 := Carried("cell", "wall", 10, 14, 4, 20);
    CellFirst();
    CellWallExtends();
    WallBackReference();
    CellAfterBackReference();
    FourSteps(CELL_WALL, FRESH, [Tag("cell", 1, 10), Tag("cell wall", 2, 10), Tag("wall", 3, 12), Tag("cell", 4, 20)],
              [Outcome(0, 4, c1), Outcome(0, 9, c2), Outcome(5, 9, c3), Outcome(10, 14, c4)]);
  }

  /** A term that does not occur gets start -1 and end |term| - 1. */
  lemma NotFound()
    ensures Resolve(CAT_DOG_CAT, [Tag("zzz", 1, 5)]) == [Placed(Tag("zzz", 1, 5), -1, 2)]
  {
    Missing();
    var zs := [Tag("zzz", 1, 5)];
    assert ResolveFrom(CAT_DOG_CAT, Carried("zzz", "", -1, 2, 1, 5), zs[1..]) == [];
  }
}
