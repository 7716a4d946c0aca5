/** The own string-keyed properties of a plain JavaScript object, in the order
    `Object.keys` lists them: the order in which the keys were first
    assigned. Both style stores are such objects. */
module JsObject {
  import opened Wrappers

  type Props<V> = seq<(string, V)>

  function Keys<V>(o: Props<V>): (r: seq<string>)
    ensures |r| == |o|
    ensures forall i | 0 <= i < |o| :: r[i] == o[i].0
  {
    seq(|o|, i requires 0 <= i < |o| => o[i].0)
  }

  /** An object never lists a key twice. */
  predicate Distinct<V>(o: Props<V>) {
    forall i, j | 0 <= i < j < |o| :: o[i].0 != o[j].0
  }

  /** `o[k]`. */
  function Get<V>(o: Props<V>, k: string): Option<V> {
    if o == [] then None
    else if o[0].0 == k then Some(o[0].1)
    else Get(o[1..], k)
  }

  /** `o[k] = v`: an existing key keeps its place and takes the new value; a new
      key goes last. */
  function Put<V>(o: Props<V>, k: string, v: V): Props<V>
  {
    if o == [] then [(k, v)]
    else if o[0].0 == k then [(k, v)] + o[1..]
    else [o[0]] + Put(o[1..], k, v)
  }

  /** After `o[k] = v`, reading `k` gives `v` and reading any other key gives
      what it gave before. */
  lemma {:induction false} PutGet<V>(o: Props<V>, k: string, v: V, k': string)
    ensures Get(Put(o, k, v), k') == if k' == k then Some(v) else Get(o, k')
  {
    if o != [] && o[0].0 != k {
      PutGet(o[1..], k, v, k');
      assert Put(o, k, v)[1..] == Put(o[1..], k, v);
    }
  }

  /** Writing a key that is present keeps the key order; writing a new key
      appends it. */
  lemma PutKeys<V>(o: Props<V>, k: string, v: V)
    ensures Keys(Put(o, k, v)) == if k in Keys(o) then Keys(o) else Keys(o) + [k]
  {
    if k in Keys(o) {
      PutPresentKeys(o, k, v);
    } else {
      PutAbsentKeys(o, k, v);
    }
  }

  lemma PutPresentKeys<V>(o: Props<V>, k: string, v: V)
    requires k in Keys(o)
    ensures Keys(Put(o, k, v)) == Keys(o)
  {
    var j :| 0 <= j < |o| && Keys(o)[j] == k;
    PutAtKeys(o, k, v, j);
  }

  lemma KeysCons<V>(x: (string, V), rest: Props<V>)
    ensures Keys([x] + rest) == [x.0] + Keys(rest)
  {
  }

  /** `Keys(o)` split into its first key and the rest. */
  lemma KeysUncons<V>(o: Props<V>)
    requires o != []
    ensures Keys(o) == [o[0].0] + Keys(o[1..])
  {
    assert [o[0]] + o[1..] == o;
    KeysCons(o[0], o[1..]);
  }

  lemma {:induction false} PutAtKeys<V>(o: Props<V>, k: string, v: V, j: nat)
    requires j < |o| && o[j].0 == k
    ensures Keys(Put(o, k, v)) == Keys(o)
  {
    KeysUncons(o);
    if o[0].0 != k {
      assert o[1..][j - 1].0 == k;
      PutAtKeys(o[1..], k, v, j - 1);
      KeysCons(o[0], Put(o[1..], k, v));
    } else {
      KeysCons((k, v), o[1..]);
    }
  }

  lemma {:induction false} PutAbsentKeys<V>(o: Props<V>, k: string, v: V)
    requires k !in Keys(o)
    ensures Keys(Put(o, k, v)) == Keys(o) + [k]
  {
    if o == [] {
      KeysCons((k, v), []);
      assert [(k, v)] + [] == [(k, v)];
    } else {
      var t := Keys(o[1..]);
      KeysUncons(o);
      PutAbsentKeys(o[1..], k, v);
      KeysCons(o[0], Put(o[1..], k, v));
      assert Keys(o) + [k] == [o[0].0] + (t + [k]);
    }
  }

  lemma PutDistinct<V>(o: Props<V>, k: string, v: V)
    requires Distinct(o)
    ensures Distinct(Put(o, k, v))
  {
    PutKeys(o, k, v);
    var r := Put(o, k, v);
    forall i, j | 0 <= i < j < |r| ensures r[i].0 != r[j].0 {
      assert Keys(r)[i] == r[i].0 && Keys(r)[j] == r[j].0;
      if k !in Keys(o) && j == |o| {
        assert Keys(o)[i] == o[i].0;
      } else {
        assert Keys(o)[i] == o[i].0 && Keys(o)[j] == o[j].0;
      }
    }
  }

  /** `Object.keys(src).forEach((k) => o[k] = src[k])`. */
  function Assign<V>(o: Props<V>, src: Props<V>): Props<V>
    decreases |src|
  {
    if src == [] then o
    else
      var last := src[|src| - 1];
      Put(Assign(o, src[..|src| - 1]), last.0, last.1)
  }

  lemma {:induction false} GetAbsent<V>(o: Props<V>, k: string)
    ensures Get(o, k).None? <==> k !in Keys(o)
  {
    if o != [] {
      GetAbsent(o[1..], k);
      assert Keys(o) == [o[0].0] + Keys(o[1..]);
    }
  }

  /** Assigning the properties of `src` is last-write-wins: a key of `src` ends
      with the value `src` gives it, every other key keeps its old value. */
  lemma {:induction false} AssignGet<V>(o: Props<V>, src: Props<V>, k: string)
    requires Distinct(src)
    ensures Get(Assign(o, src), k) == if k in Keys(src) then Get(src, k) else Get(o, k)
  {
    if src != [] {
      var n := |src| - 1;
      var front := src[..n];
      assert Distinct(front);
      AssignGet(o, front, k);
      PutGet(Assign(o, front), src[n].0, src[n].1, k);
      assert Keys(src) == Keys(front) + [src[n].0];
      if k != src[n].0 {
        LastIsIrrelevant(src, k);
      } else {
        LastWins(src);
      }
    }
  }

  lemma {:induction false} LastIsIrrelevant<V>(src: Props<V>, k: string)
    requires src != [] && src[|src| - 1].0 != k
    ensures Get(src, k) == Get(src[..|src| - 1], k)
  {
    if |src| > 1 {
      assert src[1..][..|src| - 2] == src[..|src| - 1][1..];
      LastIsIrrelevant(src[1..], k);
    }
  }

  lemma {:induction false} LastWins<V>(src: Props<V>)
    requires src != [] && Distinct(src)
    ensures Get(src, src[|src| - 1].0) == Some(src[|src| - 1].1)
  {
    if |src| > 1 {
      assert src[1..][|src| - 2] == src[|src| - 1];
      LastWins(src[1..]);
    }
  }

  /** Assigning never reorders: the old keys stay in front, in their order, and
      the keys of `src` that were new follow. The result stays free of repeats. */
  lemma AssignKeys<V>(o: Props<V>, src: Props<V>)
    ensures |o| <= |Assign(o, src)|
    ensures Keys(Assign(o, src))[..|o|] == Keys(o)
    ensures forall k :: k in Keys(Assign(o, src)) <==> k in Keys(o) || k in Keys(src)
    ensures Distinct(o) ==> Distinct(Assign(o, src))
  {
    AssignFront(o, src);
    AssignMembers(o, src);
    if Distinct(o) {
      AssignDistinct(o, src);
    }
  }

  lemma {:induction false} AssignFront<V>(o: Props<V>, src: Props<V>)
    ensures |o| <= |Assign(o, src)|
    ensures Keys(Assign(o, src))[..|o|] == Keys(o)
  {
    if src != [] {
      var n := |src| - 1;
      var mid := Assign(o, src[..n]);
      AssignFront(o, src[..n]);
      PutKeys(mid, src[n].0, src[n].1);
      assert Keys(Assign(o, src))[..|mid|] == Keys(mid);
      assert Keys(Assign(o, src))[..|o|] == Keys(mid)[..|o|];
    }
  }

  lemma {:induction false} AssignMembers<V>(o: Props<V>, src: Props<V>)
    ensures forall k :: k in Keys(Assign(o, src)) <==> k in Keys(o) || k in Keys(src)
  {
    if src != [] {
      var n := |src| - 1;
      var mid := Assign(o, src[..n]);
      AssignMembers(o, src[..n]);
      PutKeys(mid, src[n].0, src[n].1);
      assert Keys(src) == Keys(src[..n]) + [src[n].0];
    }
  }

  lemma {:induction false} AssignDistinct<V>(o: Props<V>, src: Props<V>)
    requires Distinct(o)
    ensures Distinct(Assign(o, src))
  {
    if src != [] {
      var n := |src| - 1;
      AssignDistinct(o, src[..n]);
      PutDistinct(Assign(o, src[..n]), src[n].0, src[n].1);
    }
  }
}
