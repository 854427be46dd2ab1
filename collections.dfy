/** Small collection idioms the core relies on: an optional value (the
    source's `null`/`undefined`), underscore's `_.flatten` and `_.unique`,
    and the "later assignment wins" dictionary that a `forEach` loop
    writing `dict[key] = value` leaves behind. */
module Collections {

  datatype Option<T> = None | Some(value: T)

  /** Concatenation of a sequence of sequences. Underscore's `_.flatten`
      flattens nested arrays to any depth; it agrees with this wherever the
      source calls it, because no element there is itself an array. */
  function Flatten<T>(ss: seq<seq<T>>): (r: seq<T>)
  {
    if ss == [] then [] else ss[0] + Flatten(ss[1..])
  }

  /** Each element wrapped in a one-element sequence (`stops.map(s => [s])`). */
  function Singletons<T>(s: seq<T>): seq<seq<T>>
  {
    seq(|s|, i requires 0 <= i < |s| => [s[i]])
  }

  /** Wrapping every element and flattening again gives back the sequence. */
  lemma {:induction false} FlattenSingletons<T>(s: seq<T>)
    ensures Flatten(Singletons(s)) == s
  {
    if s != [] {
      assert Singletons(s)[1..] == Singletons(s[1..]);
      FlattenSingletons(s[1..]);
    }
  }

  predicate Distinct<T(==)>(s: seq<T>)
  {
    forall i, j :: 0 <= i < j < |s| ==> s[i] != s[j]
  }

  /** `_.unique`: keeps the first occurrence of each element, in order. */
  function Unique<T(==,!new)>(s: seq<T>): (r: seq<T>)
    ensures forall x :: x in r <==> x in s
    ensures Distinct(r)
  {
    if s == [] then []
    else
      var u := Unique(s[..|s| - 1]);
      if s[|s| - 1] in u then u else u + [s[|s| - 1]]
  }

  /** On a sequence without repetitions `_.unique` changes nothing. */
  lemma {:induction false} UniqueOfDistinct<T(!new)>(s: seq<T>)
    requires Distinct(s)
    ensures Unique(s) == s
  {
    if s != [] {
      var init := s[..|s| - 1];
      UniqueOfDistinct(init);
      assert s[|s| - 1] !in init;
      assert init + [s[|s| - 1]] == s;
    }
  }

  /** The dictionary a loop `for (k, v) in ps: d[k] = v` builds from `{}`. */
  function LastWins<K(!new), V(!new)>(ps: seq<(K, V)>): (m: map<K, V>)
    ensures m.Keys == set p | p in ps :: p.0
    ensures forall k :: k in m ==> (k, m[k]) in ps
  {
    if ps == [] then map[]
    else
      var init := ps[..|ps| - 1];
      var last := ps[|ps| - 1];
      assert forall p :: p in ps <==> p in init || p == last;
      LastWins(init)[last.0 := last.1]
  }

  /** One more write updates one key. */
  lemma LastWinsSnoc<K(!new), V(!new)>(ps: seq<(K, V)>, p: (K, V))
    ensures LastWins(ps + [p]) == LastWins(ps)[p.0 := p.1]
  {
    assert (ps + [p])[..|ps|] == ps;
  }

  /** A key maps to the value of the LAST pair that carries it. */
  lemma {:induction false} LastWinsValue<K(!new), V(!new)>(ps: seq<(K, V)>, j: nat)
    requires j < |ps|
    requires forall i :: j < i < |ps| ==> ps[i].0 != ps[j].0
    ensures ps[j].0 in LastWins(ps) && LastWins(ps)[ps[j].0] == ps[j].1
  {
    if j < |ps| - 1 {
      var init := ps[..|ps| - 1];
      assert init[j] == ps[j];
      LastWinsValue(init, j);
    }
  }
}
