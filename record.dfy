/**
 * The Annotation record (Main.Annotation in src/Annotation.java): one GO tag of
 * one Textpresso annotation block. The program creates these objects while
 * reading the annotation files and later writes their start and end offsets in
 * place, so they are a class here; `Record` is the value an object holds at one
 * moment, which the specifications talk about.
 */
module AnnotationRecord {

  /** startIndex/endIndex are strings in the source: "" until resolution writes
      Integer.toString of an offset. */
  datatype Offset = Unset | At(index: int)

  datatype Record = Record(
    term: string,        // term as written in the annotation block
    id: string,          // "GO:" and seven characters
    ref: string,         // ontology term, underscores turned into spaces
    startIndex: Offset,
    endIndex: Offset,
    annoCount: int,      // number of the BOA block the tag came from
    secWordNum: int)     // Textpresso's word number within the section

  /** The record a freshly constructed Annotation holds. */
  const EMPTY_RECORD := Record("", "", "", Unset, Unset, 0, 0)

  /** Everything but the offsets: what resolution reads and never writes. */
  predicate SameTag(a: Record, b: Record)
  {
    a.term == b.term && a.id == b.id && a.ref == b.ref
    && a.annoCount == b.annoCount && a.secWordNum == b.secWordNum
  }

  class Annotation {
    var term: string
    var id: string
    var ref: string
    var startIndex: Offset
    var endIndex: Offset
    var annoCount: int
    var secWordNum: int

    constructor ()
      ensures Value() == EMPTY_RECORD
    {
      term, id, ref := "", "", "";
      startIndex, endIndex := Unset, Unset;
      annoCount, secWordNum := 0, 0;
    }

    function Value(): Record
      reads this
    {
      Record(term, id, ref, startIndex, endIndex, annoCount, secWordNum)
    }
  }

  /** The values held by a list of Annotation objects, in list order. */
  function Values(annos: seq<Annotation>): (r: seq<Record>)
    reads annos
    ensures |r| == |annos|
    ensures forall i :: 0 <= i < |annos| ==> r[i] == annos[i].Value()
  {
    seq(|annos|, i reads annos requires 0 <= i < |annos| => annos[i].Value())
  }

  lemma ValuesAppend(annos: seq<Annotation>, a: Annotation)
    ensures Values(annos + [a]) == Values(annos) + [a.Value()]
  {
  }

  lemma ValuesConcat(annos: seq<Annotation>, more: seq<Annotation>)
    ensures Values(annos + more) == Values(annos) + Values(more)
  {
  }

  /** No object occurs twice in the list. */
  predicate Distinct(annos: seq<Annotation>)
  {
    forall i, j :: 0 <= i < j < |annos| ==> annos[i] != annos[j]
  }

  lemma DistinctConcat(annos: seq<Annotation>, more: seq<Annotation>)
    requires Distinct(annos) && Distinct(more)
    requires forall a :: a in more ==> a !in annos
    ensures Distinct(annos + more)
  {
    var s := annos + more;
    forall i, j | 0 <= i < j < |s| ensures s[i] != s[j] {
      if i < |annos| && |annos| <= j {
        assert s[j] in more && s[i] in annos;
      }
    }
  }

  /** Every object of the filename-to-list map. */
  function Objects(m: map<string, seq<Annotation>>): (r: set<Annotation>)
    ensures forall k, i :: k in m && 0 <= i < |m[k]| ==> m[k][i] in r
  {
    set k, i | k in m && 0 <= i < |m[k]| :: m[k][i]
  }

  /** No object is shared between two positions of the map's lists. */
  predicate AllDistinct(m: map<string, seq<Annotation>>)
  {
    && (forall k :: k in m ==> Distinct(m[k]))
    && (forall k1, k2, i, j ::
          k1 in m && k2 in m && k1 != k2 && 0 <= i < |m[k1]| && 0 <= j < |m[k2]|
          ==> m[k1][i] != m[k2][j])
  }

  /** Putting a list whose objects occur nowhere else keeps the map free of
      shared objects. */
  lemma AllDistinctPut(m: map<string, seq<Annotation>>, key: string, annos: seq<Annotation>)
    requires AllDistinct(m) && Distinct(annos)
    requires forall a :: a in annos ==> a !in Objects(m)
    ensures AllDistinct(m[key := annos])
    ensures forall a :: a in Objects(m[key := annos]) ==> a in Objects(m) || a in annos
  {
    var m' := m[key := annos];
    forall a | a in Objects(m') ensures a in Objects(m) || a in annos {
      var k, i :| k in m' && 0 <= i < |m'[k]| && m'[k][i] == a;
      if k != key { assert m[k][i] == a; }
    }
    forall k1, k2, i, j | k1 in m' && k2 in m' && k1 != k2 && 0 <= i < |m'[k1]| && 0 <= j < |m'[k2]|
      ensures m'[k1][i] != m'[k2][j]
    {
      if k1 == key {
        assert m'[k2][j] in Objects(m);
      } else if k2 == key {
        assert m'[k1][i] in Objects(m);
      }
    }
  }

  /** The values held by every list of the map. */
  function Snapshot(m: map<string, seq<Annotation>>): (r: map<string, seq<Record>>)
    reads Objects(m)
    ensures r.Keys == m.Keys
    ensures forall k :: k in m ==> r[k] == Values(m[k])
  {
    map k | k in m :: Values(m[k])
  }

  /** Putting a list under a key puts its values in the snapshot. */
  lemma SnapshotPut(m: map<string, seq<Annotation>>, key: string, annos: seq<Annotation>)
    ensures Snapshot(m[key := annos]) == Snapshot(m)[key := Values(annos)]
  {
  }

  /** The snapshot of a map in which only the list under `key` changed. */
  lemma SnapshotReplace(m: map<string, seq<Annotation>>, key: string, snap: map<string, seq<Record>>,
                        v: seq<Record>)
    requires snap.Keys == m.Keys && key in m && Values(m[key]) == v
    requires forall k :: k in m && k != key ==> Values(m[k]) == snap[k]
    ensures Snapshot(m) == snap[key := v]
  {
  }

  /** Appending lists of records is associative; stated once so that proofs
      can use it without the sequence reasoning it takes. */
  lemma Associative(a: seq<Record>, b: seq<Record>, c: seq<Record>)
    ensures a + b + c == a + (b + c)
  {
  }
}
