/** The metadata mapping: an insertion-ordered dictionary from key to value,
    held as a sequence of records. Display order, iteration order and the
    order handed back to the writer are all the order of this sequence. */
module Store {

  datatype Record = Record(key: string, value: string)

  /** `list(metadata.keys())` */
  function Keys(rs: seq<Record>): (ks: seq<string>)
    ensures |ks| == |rs|
    ensures forall i :: 0 <= i < |rs| ==> ks[i] == rs[i].key
  {
    if rs == [] then [] else [rs[0].key] + Keys(rs[1..])
  }

  /** A dictionary never holds the same key twice. */
  predicate DistinctKeys(rs: seq<Record>) {
    forall i, j :: 0 <= i < j < |rs| ==> rs[i].key != rs[j].key
  }

  /** Replaces the value of every record whose key is `k`. */
  function Replace(rs: seq<Record>, k: string, v: string): (r: seq<Record>)
    ensures |r| == |rs|
    ensures forall i :: 0 <= i < |rs| ==> r[i] == (if rs[i].key == k then Record(k, v) else rs[i])
  {
    if rs == [] then []
    else [if rs[0].key == k then Record(k, v) else rs[0]] + Replace(rs[1..], k, v)
  }

  /** The dictionary assignment `metadata[k] = v`: an existing key keeps its
      place and takes the new value, a new key is appended at the end. */
  function Put(rs: seq<Record>, k: string, v: string): (r: seq<Record>)
    ensures k in Keys(rs) ==> Keys(r) == Keys(rs)
    ensures k !in Keys(rs) ==> r == rs + [Record(k, v)]
    ensures DistinctKeys(rs) ==> DistinctKeys(r)
  {
    if k in Keys(rs) then Replace(rs, k, v) else rs + [Record(k, v)]
  }

  /** Giving record `i` a new value keeps the keys, their order, and their
      distinctness. */
  lemma SetValue(rs: seq<Record>, i: nat, v: string)
    requires i < |rs|
    ensures Keys(rs[i := Record(rs[i].key, v)]) == Keys(rs)
    ensures DistinctKeys(rs) ==> DistinctKeys(rs[i := Record(rs[i].key, v)])
  {
    var r := rs[i := Record(rs[i].key, v)];
    assert forall j :: 0 <= j < |rs| ==> Keys(r)[j] == Keys(rs)[j];
  }

  /** Assigning to the key of record `i` rewrites record `i` and nothing else. */
  lemma PutAt(rs: seq<Record>, i: nat, v: string)
    requires DistinctKeys(rs) && i < |rs|
    ensures Put(rs, rs[i].key, v) == rs[i := Record(rs[i].key, v)]
  {
    var k := rs[i].key;
    assert Keys(rs)[i] == k;
    var r := Put(rs, k, v);
    assert |r| == |rs|;
    forall j | 0 <= j < |rs|
      ensures r[j] == rs[i := Record(k, v)][j]
    {
      if j != i {
        assert rs[j].key != k;
      }
    }
  }
}
