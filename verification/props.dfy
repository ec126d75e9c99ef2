/** Ordered string-keyed entries: the own properties of a JavaScript object.
    Keys keep their insertion order, and assigning to a key that is already
    present replaces its value in place instead of moving it to the end. */
module Props {
  import opened Results

  datatype Entry<+V> = Entry(key: string, val: V)

  function Keys<V>(es: seq<Entry<V>>): (ks: seq<string>)
    ensures |ks| == |es|
    ensures forall i :: 0 <= i < |es| ==> ks[i] == es[i].key
  {
    seq(|es|, i requires 0 <= i < |es| => es[i].key)
  }

  /** No key occurs twice: what every JavaScript object satisfies. */
  predicate DistinctKeys<V>(es: seq<Entry<V>>) {
    forall i, j :: 0 <= i < j < |es| ==> es[i].key != es[j].key
  }

  /** No element occurs twice. */
  predicate Distinct<T(==)>(xs: seq<T>) {
    forall i, j :: 0 <= i < j < |xs| ==> xs[i] != xs[j]
  }

  /** Index of the first entry with key `k`. */
  function Find<V>(es: seq<Entry<V>>, k: string): (r: Option<nat>)
    ensures r.Some? ==> r.value < |es| && es[r.value].key == k
    ensures r.Some? ==> forall j :: 0 <= j < r.value ==> es[j].key != k
    ensures r.None? <==> k !in Keys(es)
  {
    if |es| == 0 then None
    else if es[0].key == k then Some(0)
    else match Find(es[1..], k)
      case None => None
      case Some(i) => Some(i + 1)
  }

  /** `obj[k] = v` on a plain object. */
  function Put<V>(es: seq<Entry<V>>, k: string, v: V): (r: seq<Entry<V>>)
    ensures Keys(r) == if k in Keys(es) then Keys(es) else Keys(es) + [k]
    ensures Find(r, k).Some? && r[Find(r, k).value].val == v
    ensures forall j :: 0 <= j < |es| && es[j].key != k ==> r[j] == es[j]
    ensures DistinctKeys(es) ==> DistinctKeys(r)
  {
    match Find(es, k)
    case Some(i) => es[i := Entry(k, v)]
    case None => es + [Entry(k, v)]
  }

  /** Assigning a key the object does not have appends it. */
  lemma PutNew<V>(es: seq<Entry<V>>, k: string, v: V)
    requires k !in Keys(es)
    ensures Put(es, k, v) == es + [Entry(k, v)]
  {
  }

  /** In an object without repeated keys, a key is found where it stands. */
  lemma FindDistinct<V>(es: seq<Entry<V>>, i: nat)
    requires DistinctKeys(es) && i < |es|
    ensures Find(es, es[i].key) == Some(i)
  {
    var k := es[i].key;
    assert k in Keys(es) by { assert Keys(es)[i] == k; }
  }

  /** Assigning a key the object has replaces its value where it stands. */
  lemma PutExisting<V>(es: seq<Entry<V>>, i: nat, v: V)
    requires DistinctKeys(es) && i < |es|
    ensures Put(es, es[i].key, v) == es[i := Entry(es[i].key, v)]
  {
    FindDistinct(es, i);
  }

  /** The keys of `ks` followed by those of `more` not seen before, in order of
      first appearance: the key order of an object assigned `more` in turn. */
  function AddKeys(ks: seq<string>, more: seq<string>): seq<string>
    decreases |more|
  {
    if |more| == 0 then ks
    else AddKeys(if more[0] in ks then ks else ks + [more[0]], more[1..])
  }

  lemma {:induction false} AddKeysKeepsPrefix(ks: seq<string>, more: seq<string>)
    ensures |AddKeys(ks, more)| >= |ks|
    ensures AddKeys(ks, more)[..|ks|] == ks
    decreases |more|
  {
    if |more| > 0 {
      var next := if more[0] in ks then ks else ks + [more[0]];
      AddKeysKeepsPrefix(next, more[1..]);
      assert next[..|ks|] == ks;
    }
  }

  lemma FindAfterAppend<V>(es: seq<Entry<V>>, e: Entry<V>)
    requires e.key !in Keys(es)
    ensures Find(es + [e], e.key) == Some(|es|)
    ensures forall k :: k != e.key ==> Find(es + [e], k) == Find(es, k)
  {
    forall k | k != e.key
      ensures Find(es + [e], k) == Find(es, k)
    {
      FindAppendOther(es, e, k);
    }
    FindAppendOther(es, e, e.key);
  }

  lemma {:induction false} FindAppendOther<V>(es: seq<Entry<V>>, e: Entry<V>, k: string)
    ensures k != e.key ==> Find(es + [e], k) == Find(es, k)
    ensures k == e.key && k !in Keys(es) ==> Find(es + [e], k) == Some(|es|)
    decreases |es|
  {
    if |es| > 0 {
      assert (es + [e])[1..] == es[1..] + [e];
      FindAppendOther(es[1..], e, k);
    }
  }

  lemma {:induction false} FindAfterUpdate<V>(es: seq<Entry<V>>, i: nat, v: V)
    requires i < |es|
    ensures forall k :: k != es[i].key ==> Find(es[i := Entry(es[i].key, v)], k) == Find(es, k)
    ensures Find(es, es[i].key) == Some(i) ==> Find(es[i := Entry(es[i].key, v)], es[i].key) == Some(i)
  {
    forall k | k != es[i].key
      ensures Find(es[i := Entry(es[i].key, v)], k) == Find(es, k)
    {
      FindUpdateOther(es, i, v, k);
    }
    FindUpdateOther(es, i, v, es[i].key);
  }

  lemma {:induction false} FindUpdateOther<V>(es: seq<Entry<V>>, i: nat, v: V, k: string)
    requires i < |es|
    ensures Find(es[i := Entry(es[i].key, v)], k) == Find(es, k)
    decreases i
  {
    var es' := es[i := Entry(es[i].key, v)];
    if i > 0 {
      assert es'[1..] == es[1..][i - 1 := Entry(es[i].key, v)];
      FindUpdateOther(es[1..], i - 1, v, k);
    }
  }

  /** Keys that are new and pairwise different are added in the given order. */
  lemma {:induction false} AddKeysFresh(ks: seq<string>, more: seq<string>)
    requires Distinct(more)
    requires forall i :: 0 <= i < |more| ==> more[i] !in ks
    ensures AddKeys(ks, more) == ks + more
    decreases |more|
  {
    if |more| > 0 {
      var ks' := ks + [more[0]];
      forall i | 0 <= i < |more[1..]|
        ensures more[1..][i] !in ks'
      {
        assert more[0] != more[i + 1];
      }
      AddKeysFresh(ks', more[1..]);
      assert ks' + more[1..] == ks + more;
    }
  }

  /** Assigning `a` and then `b` adds the keys that assigning `a + b` adds. */
  lemma {:induction false} AddKeysAppend(ks: seq<string>, a: seq<string>, b: seq<string>)
    ensures AddKeys(ks, a + b) == AddKeys(AddKeys(ks, a), b)
    decreases |a|
  {
    if |a| == 0 {
      assert a + b == b;
    } else {
      var next := if a[0] in ks then ks else ks + [a[0]];
      assert (a + b)[1..] == a[1..] + b;
      AddKeysAppend(next, a[1..], b);
    }
  }

  /** Every key of `AddKeys(ks, more)` comes from `ks` or from `more`. */
  lemma {:induction false} AddKeysFrom(ks: seq<string>, more: seq<string>, x: string)
    requires x in AddKeys(ks, more)
    ensures x in ks || x in more
    decreases |more|
  {
    if |more| > 0 {
      var next := if more[0] in ks then ks else ks + [more[0]];
      AddKeysFrom(next, more[1..], x);
      if x in more[1..] {
        var l :| 0 <= l < |more[1..]| && more[1..][l] == x;
        assert more[l + 1] == x;
      }
    }
  }

  /** An entry with key `k` and none before it is the one `Find` answers. */
  lemma FindFirst<V>(es: seq<Entry<V>>, p: nat, k: string)
    requires p < |es| && es[p].key == k
    requires forall l :: 0 <= l < p ==> es[l].key != k
    ensures Find(es, k) == Some(p)
  {
    assert Keys(es)[p] == k;
  }

  /** Assigning one key leaves where another is found, and its entry, alone. */
  lemma PutOther<V>(es: seq<Entry<V>>, k': string, v: V, k: string)
    requires k != k'
    ensures Find(Put(es, k', v), k) == Find(es, k)
    ensures Find(es, k).Some? ==> Put(es, k', v)[Find(es, k).value] == es[Find(es, k).value]
  {
    match Find(es, k')
    case Some(i) => FindAfterUpdate(es, i, v);
    case None => FindAfterAppend(es, Entry(k', v));
  }

  /** A key's first occurrence in `xs` puts it right after the keys that
      `xs[..i]` adds, and nowhere before. */
  lemma AddKeysFirst(xs: seq<string>, i: nat)
    requires i < |xs|
    requires xs[i] !in xs[..i]
    ensures |AddKeys([], xs[..i])| < |AddKeys([], xs)|
    ensures AddKeys([], xs)[|AddKeys([], xs[..i])|] == xs[i]
    ensures forall l :: 0 <= l < |AddKeys([], xs[..i])| ==> AddKeys([], xs)[l] != xs[i]
  {
    var before := AddKeys([], xs[..i]);
    assert xs == xs[..i] + xs[i..];
    AddKeysAppend([], xs[..i], xs[i..]);
    if xs[i] in before {
      AddKeysFrom([], xs[..i], xs[i]);
    }
    assert xs[i..][1..] == xs[i + 1..];
    AddKeysKeepsPrefix(before + [xs[i]], xs[i + 1..]);
    forall l | 0 <= l < |before|
      ensures AddKeys([], xs)[l] != xs[i]
    {
      assert AddKeys([], xs)[l] == (before + [xs[i]])[l];
    }
  }

  /** Assigning the entries `ws` in turn to the object `acc`. */
  function PutAll<V>(acc: seq<Entry<V>>, ws: seq<Entry<V>>): seq<Entry<V>>
    decreases |ws|
  {
    if |ws| == 0 then acc else PutAll(Put(acc, ws[0].key, ws[0].val), ws[1..])
  }

  /** The last assignment to a key decides its value. */
  lemma {:induction false} PutAllLast<V>(acc: seq<Entry<V>>, ws: seq<Entry<V>>, j: nat)
    requires j < |ws|
    requires forall l :: j < l < |ws| ==> ws[l].key != ws[j].key
    ensures Find(PutAll(acc, ws), ws[j].key).Some?
    ensures PutAll(acc, ws)[Find(PutAll(acc, ws), ws[j].key).value].val == ws[j].val
    decreases |ws|
  {
    var acc' := Put(acc, ws[0].key, ws[0].val);
    LaterKeysAvoid(ws, j, ws[j].key);
    if j == 0 {
      PutAllUntouched(acc', ws[1..], ws[0].key);
    } else {
      assert ws[1..][j - 1] == ws[j];
      PutAllLast(acc', ws[1..], j - 1);
    }
  }

  /** Assignments to other keys leave an entry where it is, as it is. */
  lemma {:induction false} PutAllUntouched<V>(acc: seq<Entry<V>>, ws: seq<Entry<V>>, k: string)
    requires forall l :: 0 <= l < |ws| ==> ws[l].key != k
    ensures Find(PutAll(acc, ws), k) == Find(acc, k)
    ensures Find(acc, k).Some? ==> PutAll(acc, ws)[Find(acc, k).value] == acc[Find(acc, k).value]
    decreases |ws|
  {
    if |ws| > 0 {
      PutOther(acc, ws[0].key, ws[0].val, k);
      LaterKeysAvoid(ws, 0, k);
      PutAllUntouched(Put(acc, ws[0].key, ws[0].val), ws[1..], k);
    }
  }

  lemma LaterKeysAvoid<V>(ws: seq<Entry<V>>, j: nat, k: string)
    requires j < |ws|
    requires forall l :: j < l < |ws| ==> ws[l].key != k
    ensures forall l :: j <= l < |ws| - 1 ==> ws[1..][l].key != k
  {
    forall l | j <= l < |ws| - 1
      ensures ws[1..][l].key != k
    {
      assert ws[1..][l] == ws[l + 1];
    }
  }
}
