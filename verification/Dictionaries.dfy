/** Loops that fill a dictionary from another one under new names: where two keys get
    one name, the value of the later key stays. */
module Dictionaries {
  import opened Bytes

  /** The elements of s once each, in some order. */
  ghost predicate ListsOnce<T(!new)>(r: seq<T>, s: set<T>) {
    (forall x :: x in r <==> x in s) && forall i, j :: 0 <= i < j < |r| ==> r[i] != r[j]
  }

  /** No later key gets the name of key i. */
  ghost predicate LastOfName<K, N>(order: seq<K>, i: nat, name: K -> Option<N>)
    requires i < |order|
  {
    forall j :: i < j < |order| ==> name(order[j]) != name(order[i])
  }

  /** filled holds the values of the keys in order, under their names; keys without a
      name are left out. */
  ghost predicate FilledInOrder<K, N(!new), V>(filled: map<N, V>, values: map<K, V>, order: seq<K>,
      name: K -> Option<N>)
    requires forall k :: k in order ==> k in values
  {
    && (forall n :: n in filled <==> exists i :: 0 <= i < |order| && name(order[i]) == Some(n))
    && (forall i :: 0 <= i < |order| && name(order[i]).Some? && LastOfName(order, i, name) ==>
          name(order[i]).value in filled && filled[name(order[i]).value] == values[order[i]])
  }

  lemma {:induction false} NothingFilled<K, N(!new), V>(values: map<K, V>, order: seq<K>, name: K -> Option<N>)
    ensures FilledInOrder(map[], values, order[..0], name)
  {
  }

  lemma {:induction false} OneMoreKey<K, N(!new), V>(filled: map<N, V>, values: map<K, V>, order: seq<K>, i: nat,
      name: K -> Option<N>)
    requires i < |order| && (forall k :: k in order ==> k in values) && FilledInOrder(filled, values, order[..i], name)
    ensures var n := name(order[i]);
            FilledInOrder(if n.Some? then filled[n.value := values[order[i]]] else filled, values, order[..i + 1], name)
  {
    var was, now, last := order[..i], order[..i + 1], name(order[i]);
    var after := if last.Some? then filled[last.value := values[order[i]]] else filled;
    assert now == was + [order[i]];
    forall n ensures n in after <==> exists j :: 0 <= j < |now| && name(now[j]) == Some(n) {
      NamesTurn(filled, was, order[i], name, n);
    }
    forall j | 0 <= j < |now| && name(now[j]).Some? && LastOfName(now, j, name)
      ensures name(now[j]).value in after && after[name(now[j]).value] == values[now[j]]
    {
      if j < i {
        LastEarlier(was, order[i], j, name);
      }
    }
  }

  lemma {:induction false} NamesTurn<K, N(!new), V>(filled: map<N, V>, was: seq<K>, k: K, name: K -> Option<N>, n: N)
    requires n in filled <==> exists j :: 0 <= j < |was| && name(was[j]) == Some(n)
    ensures n in filled || Some(n) == name(k) <==> exists j :: 0 <= j < |was + [k]| && name((was + [k])[j]) == Some(n)
  {
    var now := was + [k];
    if j :| 0 <= j < |was| && name(was[j]) == Some(n) {
      assert name(now[j]) == Some(n);
    }
    assert name(now[|was|]) == name(k);
  }

  lemma {:induction false} LastEarlier<K, N>(was: seq<K>, k: K, j: nat, name: K -> Option<N>)
    requires j < |was| && LastOfName(was + [k], j, name)
    ensures LastOfName(was, j, name) && name(was[j]) != name(k)
  {
    var now := was + [k];
    assert now[|was|] == k && now[j] == was[j];
    forall i | j < i < |was| ensures name(was[i]) != name(was[j]) {
      assert now[i] == was[i];
    }
  }

  /** out holds every named value under its name, and nothing else. */
  ghost predicate Holds<K(!new), N(!new), V>(out: map<N, V>, values: map<K, V>, name: K -> Option<N>) {
    && (forall k :: k in values && name(k).Some? ==> name(k).value in out && out[name(k).value] == values[k])
    && (forall n :: n in out ==> exists k :: k in values && name(k) == Some(n))
  }

  /** Where no two keys get one name, the order of the dictionary does not matter. */
  lemma {:induction false} OrderDoesNotMatter<K(!new), N(!new), V>(filled: map<N, V>, values: map<K, V>, order: seq<K>,
      name: K -> Option<N>, out: map<N, V>)
    requires ListsOnce(order, values.Keys) && FilledInOrder(filled, values, order, name) && Holds(out, values, name)
    requires forall k, l :: k in values && l in values && name(k).Some? && name(k) == name(l) ==> k == l
    ensures filled == out
  {
    forall i | 0 <= i < |order| && name(order[i]).Some? ensures LastOfName(order, i, name) && order[i] in values {
      assert order[i] in order;
      forall j | i < j < |order| ensures name(order[j]) != name(order[i]) {
        assert order[j] in order && order[j] != order[i];
      }
    }
    forall n | n in filled ensures n in out && filled[n] == out[n] {
      var i :| 0 <= i < |order| && name(order[i]) == Some(n);
    }
    forall n | n in out ensures n in filled {
      var k :| k in values && name(k) == Some(n);
      assert k in order;
    }
  }
}
