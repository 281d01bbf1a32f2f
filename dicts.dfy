/** compose_dicts (tcvt.py), used to turn the terminfo alternate-character
    mapping into a mapping from bytes to curses glyphs. */
module Dicts {

  /** compose_dicts: the result maps every key k of d1 whose value d1[k] is
      a key of d2 to d2[d1[k]]; keys whose value d2 lacks are skipped. */
  method ComposeDicts<K, V, W>(d1: map<K, V>, d2: map<V, W>) returns (r: map<K, W>)
    ensures r.Keys == set k | k in d1 && d1[k] in d2
    ensures forall k :: k in r ==> r[k] == d2[d1[k]]
  {
    r := map[];
    var todo := d1.Keys;
    while todo != {}
      invariant todo <= d1.Keys
      invariant r.Keys == set k | k in d1 && k !in todo && d1[k] in d2
      invariant forall k :: k in r ==> r[k] == d2[d1[k]]
      decreases todo
    {
      var key :| key in todo;
      var value := d1[key];
      if value in d2 {
        r := r[key := d2[value]];
      }
      todo := todo - {key};
    }
  }

  /** Composing with the identity on the values of d1 gives d1 back. */
  lemma ComposeWithIdentity<K, V>(d1: map<K, V>, id: map<V, V>, r: map<K, V>)
    requires forall v :: v in id <==> v in d1.Values
    requires forall v :: v in id ==> id[v] == v
    requires r.Keys == set k | k in d1 && d1[k] in id
    requires forall k :: k in r ==> r[k] == id[d1[k]]
    ensures r == d1
  {
  }
}
