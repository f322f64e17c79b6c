/** A JavaScript object filled by a sequence of property assignments
    `obj[k] = v`, some of which may be skipped. Every table the converter fills
    in a `forEach` loop is an instance of this fold. */
module Assignments {
  import opened Json

  /** The map obtained from `m` by performing the assignments of `ws` in order;
      `None` is a step that assigns nothing. */
  function Assign<K(==), V>(m: map<K, V>, ws: seq<Option<(K, V)>>): map<K, V>
    decreases |ws|
  {
    if ws == [] then m
    else
      var prev := Assign(m, ws[..|ws| - 1]);
      match ws[|ws| - 1]
      case None => prev
      case Some(kv) => prev[kv.0 := kv.1]
  }

  /** Performing the steps up to `i` inclusive is performing those before
      `i`, then step `i`. */
  lemma AssignStep<K, V>(m: map<K, V>, ws: seq<Option<(K, V)>>, i: nat)
    requires i < |ws|
    ensures Assign(m, ws[..i + 1]) ==
              if ws[i].Some? then Assign(m, ws[..i])[ws[i].value.0 := ws[i].value.1] else Assign(m, ws[..i])
  {
    assert ws[..i + 1][..i] == ws[..i];
  }

  /** Step `w` assigns key `k`. */
  predicate Writes<K(==), V>(w: Option<(K, V)>, k: K) {
    w.Some? && w.value.0 == k
  }

  /** Step `i` is the last step of `ws` that assigns `k`. */
  predicate LastWriteAt<K(==), V>(ws: seq<Option<(K, V)>>, i: int, k: K) {
    0 <= i < |ws| && Writes(ws[i], k) &&
    forall j :: i < j < |ws| ==> !Writes(ws[j], k)
  }

  /** Last write wins: a key is present iff it was present before or some step
      assigns it; it then holds the value of the last step that assigns it, and
      a key no step assigns keeps its old value. */
  lemma {:induction false} AssignAt<K, V>(m: map<K, V>, ws: seq<Option<(K, V)>>, k: K)
    ensures k in Assign(m, ws) <==> k in m || exists i :: 0 <= i < |ws| && Writes(ws[i], k)
    ensures forall i :: LastWriteAt(ws, i, k) ==> k in Assign(m, ws) && Assign(m, ws)[k] == ws[i].value.1
    ensures (forall i :: 0 <= i < |ws| ==> !Writes(ws[i], k)) && k in m ==>
              k in Assign(m, ws) && Assign(m, ws)[k] == m[k]
    decreases |ws|
  {
    if ws != [] {
      var n := |ws| - 1;
      var pre := ws[..n];
      AssignAt(m, pre, k);
      assert Assign(m, ws) == if ws[n].Some? then Assign(m, pre)[ws[n].value.0 := ws[n].value.1] else Assign(m, pre);
      if Writes(ws[n], k) {
        assert forall i :: LastWriteAt(ws, i, k) ==> i == n;
      } else {
        assert forall i :: 0 <= i < n ==> pre[i] == ws[i];
        forall i | LastWriteAt(ws, i, k) ensures LastWriteAt(pre, i, k) {
          assert i != n;
        }
        assert (exists i :: 0 <= i < |ws| && Writes(ws[i], k)) ==> exists i :: 0 <= i < n && Writes(pre[i], k);
      }
    }
  }

  /** When every step that assigns `k` assigns the same value `v`, and one does,
      the key ends up holding `v`. */
  lemma {:induction false} AssignUniform<K, V>(m: map<K, V>, ws: seq<Option<(K, V)>>, k: K, v: V)
    requires exists i :: 0 <= i < |ws| && Writes(ws[i], k)
    requires forall i :: 0 <= i < |ws| && Writes(ws[i], k) ==> ws[i].value.1 == v
    ensures k in Assign(m, ws) && Assign(m, ws)[k] == v
    decreases |ws|
  {
    var n := |ws| - 1;
    var pre := ws[..n];
    if !Writes(ws[n], k) {
      var i :| 0 <= i < |ws| && Writes(ws[i], k);
      assert i < n && pre[i] == ws[i];
      forall j | 0 <= j < |pre| && Writes(pre[j], k) ensures pre[j].value.1 == v {
        assert pre[j] == ws[j];
      }
      AssignUniform(m, pre, k, v);
    }
  }

  /** A key that some step assigns has a last step that assigns it. */
  lemma {:induction false} LastWriteExists<K, V>(ws: seq<Option<(K, V)>>, k: K)
    requires exists i :: 0 <= i < |ws| && Writes(ws[i], k)
    ensures exists i :: LastWriteAt(ws, i, k)
    decreases |ws|
  {
    var n := |ws| - 1;
    if !Writes(ws[n], k) {
      var pre := ws[..n];
      var i :| 0 <= i < |ws| && Writes(ws[i], k);
      assert i < n && pre[i] == ws[i];
      LastWriteExists(pre, k);
      var j :| LastWriteAt(pre, j, k);
      assert LastWriteAt(ws, j, k);
    } else {
      assert LastWriteAt(ws, n, k);
    }
  }
}
