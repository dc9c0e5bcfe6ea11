/**
 * writeOut of src/Annotation.java, content only: for every key of the map a
 * tab-separated file named after the key, holding a header row and one row per
 * record. `ReadRow` reads a row back, which is how the rows are specified.
 */
module Writer {
  import opened JavaLang
  import opened AnnotationRecord

  const TAB: char := '\t'

  const HEADER := "StartIndex\tEndIndex\tGO:ID\tTerm\tOntologyTerm"

  /** What getStartIndex/getEndIndex return: "" before resolution, then
      Integer.toString of the offset. */
  function OffsetText(o: Offset): (s: string)
    ensures TAB !in s
    ensures s == "" <==> o.Unset?
  {
    match o
    case Unset => ""
    case At(i) => IntToString(i)
  }

  /** The fields with a tab between each two. */
  function TabJoin(fields: seq<string>): string
    requires fields != []
  {
    if |fields| == 1 then fields[0] else fields[0] + [TAB] + TabJoin(fields[1..])
  }

  /** One row: start, end, GO id, term and ontology term, tab-separated. */
  function Row(r: Record): string
  {
    TabJoin([OffsetText(r.startIndex), OffsetText(r.endIndex), r.id, r.term, r.ref])
  }

  /** The lines one paper's file receives, in list order. */
  function Table(rs: seq<Record>): (lines: seq<string>)
    ensures |lines| == |rs| + 1 && lines[0] == HEADER
    ensures forall i :: 0 <= i < |rs| ==> lines[i + 1] == Row(rs[i])
  {
    [HEADER] + seq(|rs|, i requires 0 <= i < |rs| => Row(rs[i]))
  }

  /** directory + "/" + key.substring(0, key.length() - 4) + ".tsv"; a key
      shorter than four characters makes substring throw. */
  function OutputPath(dir: string, key: string): (r: Result<string, Crash>)
    ensures r.Err? <==> |key| < 4
    ensures r.Err? ==> r.error == IndexOutOfBounds
  {
    if |key| < 4 then Err(IndexOutOfBounds) else Ok(dir + "/" + key[..|key| - 4] + ".tsv")
  }

  /** A file writeOut writes. */
  datatype TsvFile = TsvFile(path: string, lines: seq<string>)

  /** writeOut: one file per key of the map. Any key shorter than four
      characters ends the run. */
  function WriteOut(m: map<string, seq<Record>>, dir: string): (r: Result<map<string, TsvFile>, Crash>)
    ensures r.Err? <==> exists k :: k in m && |k| < 4
    ensures r.Ok? ==> r.value.Keys == m.Keys
    ensures r.Ok? ==> forall k :: k in m ==>
      OutputPath(dir, k) == Ok(r.value[k].path) && r.value[k].lines == Table(m[k])
  {
    if exists k :: k in m && |k| < 4 then Err(IndexOutOfBounds)
    else Ok(map k | k in m :: TsvFile(OutputPath(dir, k).value, Table(m[k])))
  }

  // ---------------------------------------------------------------------------
  // Reading a row back

  /** The fields of a line cut at every tab. */
  function Split(s: string): (r: seq<string>)
    ensures |r| >= 1
  {
    if s == [] then [""]
    else
      var rest := Split(s[1..]);
      if s[0] == TAB then [""] + rest else [[s[0]] + rest[0]] + rest[1..]
  }

  lemma {:induction false} SplitField(a: string, b: string)
    requires TAB !in a
    ensures Split(a + [TAB] + b) == [a] + Split(b)
  {
    var s := a + [TAB] + b;
    if a == [] {
      assert s[1..] == b;
    } else {
      assert s[1..] == a[1..] + [TAB] + b;
      SplitField(a[1..], b);
      assert [s[0]] + a[1..] == a;
    }
  }

  lemma {:induction false} SplitLast(a: string)
    requires TAB !in a
    ensures Split(a) == [a]
  {
    if a != [] {
      SplitLast(a[1..]);
      assert [a[0]] + a[1..] == a;
    }
  }

  function ReadOffset(s: string): Option<Offset>
  {
    if s == "" then Some(Unset)
    else match ParseInt(s)
      case None => None
      case Some(i) => Some(At(i))
  }

  /** What a row holds. */
  datatype Fields = Fields(start: Offset, end: Offset, id: string, term: string, ref: string)

  function FieldsOf(r: Record): Fields
  {
    Fields(r.startIndex, r.endIndex, r.id, r.term, r.ref)
  }

  /** A row read back: five tab-separated fields, two of them offsets. */
  function ReadRow(line: string): Option<Fields>
  {
    var f := Split(line);
    if |f| != 5 then None
    else match (ReadOffset(f[0]), ReadOffset(f[1]))
      case (Some(s), Some(e)) => Some(Fields(s, e, f[2], f[3], f[4]))
      case _ => None
  }

  predicate IntOffset(o: Offset)
  {
    o.At? ==> IsInt(o.index)
  }

  lemma ReadOffsetText(o: Offset)
    requires IntOffset(o)
    ensures ReadOffset(OffsetText(o)) == Some(o)
  {
    if o.At? {
      ParseIntToString(o.index);
    }
  }

  /** Cutting at the tabs undoes joining with tabs, when no field holds one. */
  lemma {:induction false} SplitTabJoin(fields: seq<string>)
    requires fields != [] && forall i :: 0 <= i < |fields| ==> TAB !in fields[i]
    ensures Split(TabJoin(fields)) == fields
  {
    if |fields| == 1 {
      SplitLast(fields[0]);
    } else {
      SplitTabJoin(fields[1..]);
      SplitField(fields[0], TabJoin(fields[1..]));
    }
  }

  /** A row reads back as the record's fields, when the strings in it hold no
      tab and the offsets are ints. */
  lemma ReadRowOfRow(r: Record)
    requires TAB !in r.id && TAB !in r.term && TAB !in r.ref
    requires IntOffset(r.startIndex) && IntOffset(r.endIndex)
    ensures ReadRow(Row(r)) == Some(FieldsOf(r))
  {
    var fields := [OffsetText(r.startIndex), OffsetText(r.endIndex), r.id, r.term, r.ref];
    SplitTabJoin(fields);
    ReadOffsetText(r.startIndex);
    ReadOffsetText(r.endIndex);
  }

  /** A record not yet resolved is written with both offset fields empty. */
  lemma UnsetRow(r: Record)
    requires r.startIndex == Unset && r.endIndex == Unset
    ensures Row(r) == [TAB, TAB] + TabJoin([r.id, r.term, r.ref])
  {
    var fields := [OffsetText(r.startIndex), OffsetText(r.endIndex), r.id, r.term, r.ref];
    assert fields[1..][1..] == [r.id, r.term, r.ref];
    assert TabJoin(fields[1..]) == "" + [TAB] + TabJoin([r.id, r.term, r.ref]);
    assert Row(r) == "" + [TAB] + TabJoin(fields[1..]);
  }

  /** The name of a .txt annotation file becomes the same name with .tsv. */
  lemma OutputPathOfText(dir: string, stem: string)
    ensures OutputPath(dir, stem + ".txt") == Ok(dir + "/" + stem + ".tsv")
  {
    assert (stem + ".txt")[..|stem|] == stem;
  }

  /** A paper with one record, named stem.txt: its file is stem.tsv in the
      output directory, with the header and the record's row. */
  lemma WriteOne(dir: string, stem: string, r: Record)
    ensures WriteOut(map[stem + ".txt" := [r]], dir)
            == Ok(map[stem + ".txt" := TsvFile(dir + "/" + stem + ".tsv", [HEADER, Row(r)])])
  {
    var k := stem + ".txt";
    var m := map[k := [r]];
    OutputPathOfText(dir, stem);
    assert Table([r]) == [HEADER, Row(r)];
    var w := WriteOut(m, dir);
    assert w.value.Keys == {k};
    assert w.value == map[k := TsvFile(dir + "/" + stem + ".tsv", [HEADER, Row(r)])];
  }

  /** doc1.txt is written to Output/GO/doc1.tsv, and a resolved record of
      it as a row that reads back as its offsets, id, term and ref. */
  lemma Doc1()
    ensures OutputPath("Output/GO", "doc1.txt") == Ok("Output/GO/doc1.tsv")
    ensures var r := Record("cat", "GO:0005575", "feline thing", At(0), At(3), 1, 10);
      ReadRow(Row(r)) == Some(Fields(At(0), At(3), "GO:0005575", "cat", "feline thing"))
  {
    OutputPathOfText("Output/GO", "doc1");
    assert "doc1" + ".txt" == "doc1.txt";
    assert "Output/GO" + "/" + "doc1" + ".tsv" == "Output/GO/doc1.tsv";
    ReadRowOfRow(Record("cat", "GO:0005575", "feline thing", At(0), At(3), 1, 10));
  }
}
