// Small values shared by the models.
module Common {
  datatype Option<+T> = None | Some(value: T)

  // A pair of doubles (Vector2D); rounding of doubles is not modelled.
  datatype Vec = Vec(x: real, y: real) {
    function Plus(o: Vec): Vec {
      Vec(x + o.x, y + o.y)
    }

    function Minus(o: Vec): Vec {
      Vec(x - o.x, y - o.y)
    }

    function Scale(k: real): Vec {
      Vec(x * k, y * k)
    }
  }

  const ORIGIN := Vec(0.0, 0.0)

  // A box: top-left corner and extent (CBox).
  datatype Box = Box(x: real, y: real, w: real, h: real)

  function Min(a: real, b: real): real {
    if b < a then b else a
  }

  function Max(a: real, b: real): real {
    if a < b then b else a
  }

  // std::clamp
  function Clamp(v: real, lo: real, hi: real): real {
    if v < lo then lo else if hi < v then hi else v
  }

  // A conversion from double to int, which drops the fraction.
  function Trunc(r: real): int {
    if r >= 0.0 then r.Floor else -((-r).Floor)
  }

  lemma SameMap<K, V>(a: map<K, V>, b: map<K, V>)
    requires a.Keys == b.Keys
    requires forall k :: k in a ==> a[k] == b[k]
    ensures a == b
  {
  }

  predicate Distinct<T(==)>(list: seq<T>) {
    forall i, j :: 0 <= i < j < |list| ==> list[i] != list[j]
  }
}
