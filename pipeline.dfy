/**
 * main of src/Annotation.java: pullAnnos over the annotation files, getIndexes
 * over the raw texts, then writeOut. `Run` is the whole run as a function of
 * the directory contents; `RunPipeline` performs it on Annotation objects.
 */
module Pipeline {
  import opened JavaLang
  import opened AnnotationRecord
  import opened Extractor
  import opened Resolver
  import opened ResolverFacts
  import opened Writer

  /** The files a run writes, keyed by annotation-file name, or the exception
      that ended it. */
  function Run(annoFiles: seq<InputFile>, raws: seq<RawFile>, outDir: string)
    : Result<map<string, TsvFile>, Crash>
  {
    match Pull(annoFiles, map[], 0)
    case Err(e) => Err(e)
    case Ok(m) =>
      match ResolveAll(raws, m)
      case Err(e) => Err(e)
      case Ok(resolved) => WriteOut(resolved, outDir)
  }

  method RunPipeline(annoFiles: seq<InputFile>, raws: seq<RawFile>, outDir: string)
    returns (r: Result<map<string, TsvFile>, Crash>)
    ensures r == Run(annoFiles, raws, outDir)
  {
    var pulled := PullAnnos(annoFiles);
    if pulled.Err? { return Err(pulled.error); }
    var annos := pulled.value;
    var crash := GetIndexes(annos, raws);
    if crash.Some? { return Err(crash.value); }
    r := WriteOut(Snapshot(annos), outDir);
  }

  /** Resolving and writing out a map of records: one file per key, named
      after it, with the header and one row per record. */
  lemma ResolveAndWrite(raws: seq<RawFile>, m: map<string, seq<Record>>, outDir: string)
    ensures var q := ResolveAll(raws, m);
      q.Ok? && WriteOut(q.value, outDir).Ok? ==>
        var w := WriteOut(q.value, outDir).value;
        && w.Keys == m.Keys
        && forall k :: k in w ==>
             && OutputPath(outDir, k) == Ok(w[k].path)
             && |w[k].lines| == |m[k]| + 1
             && w[k].lines[0] == HEADER
  {
    ResolveAllFrame(raws, m);
  }

  /** A run that ends normally writes one file per annotation file, named
      after it, starting with the header and then one row per record the
      annotation file yields. */
  lemma RunFiles(annoFiles: seq<InputFile>, raws: seq<RawFile>, outDir: string)
    ensures var r := Run(annoFiles, raws, outDir); var p := Pull(annoFiles, map[], 0);
      r.Ok? ==>
        && p.Ok? && r.value.Keys == p.value.Keys == Names(annoFiles)
        && forall k :: k in r.value ==>
             && OutputPath(outDir, k) == Ok(r.value[k].path)
             && |r.value[k].lines| == |p.value[k]| + 1
             && r.value[k].lines[0] == HEADER
  {
    PullNumbersAbove(annoFiles, map[], 0);
    var p := Pull(annoFiles, map[], 0);
    if p.Ok? {
      ResolveAndWrite(raws, p.value, outDir);
    }
  }

  /** An annotation file that no raw file's key names is written with every
      row's offset fields empty. */
  lemma RunUnresolved(annoFiles: seq<InputFile>, raws: seq<RawFile>, outDir: string, k: string)
    requires k !in Keys(raws)
    ensures var r := Run(annoFiles, raws, outDir);
      r.Ok? && k in r.value ==>
        forall i :: 1 <= i < |r.value[k].lines| ==> [TAB, TAB] <= r.value[k].lines[i]
  {
    PullNumbersAbove(annoFiles, map[], 0);
    var p := Pull(annoFiles, map[], 0);
    if p.Ok? {
      var m := p.value;
      ResolveAllFrame(raws, m);
      var q := ResolveAll(raws, m);
      if q.Ok? && k in m {
        assert q.value[k] == m[k];
        var w := WriteOut(q.value, outDir);
        assert Run(annoFiles, raws, outDir) == w;
        if w.Ok? {
          var lines := w.value[k].lines;
          assert lines == Table(m[k]);
          forall i | 1 <= i < |lines| ensures [TAB, TAB] <= lines[i] {
            var rec := m[k][i - 1];
            assert WellFormed(rec);
            UnsetRow(rec);
          }
        }
      }
    }
  }

  /** The GO tags one annotation block yields, whatever their GO ids and
      refs, all get the same start and end offset when resolved, unless the
      locals last searched for that same block number. */
  lemma BlockTagsShareOffsets(text: string, c: Carried, tags: seq<string>, term: string,
                              count: int, secWordNum: int)
    requires Tags(tags, term, count, secWordNum) != [] && count != c.lastCount
    ensures var r := ResolveFrom(text, c, Tags(tags, term, count, secWordNum));
      forall i :: 0 <= i < |r| ==> r[i].startIndex == r[0].startIndex && r[i].endIndex == r[0].endIndex
  {
    var rs := Tags(tags, term, count, secWordNum);
    assert OneBlock(rs) by {
      forall i | 0 <= i < |rs| ensures SamePlace(rs[i], rs[0]) {
      }
    }
    BlockSharesOffsets(text, c, rs);
  }
}
