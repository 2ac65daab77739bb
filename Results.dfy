/** Python exceptions raised by the scripts, and the results that carry them. */
module Results {

  /** The exception kinds the modelled code can raise; the payload names the failing lookup. */
  datatype Error =
    | IndexError(context: string)
    | KeyError(context: string)
    | ValueError(context: string)
    | AssertionError(context: string)

  datatype Option<T> = None | Some(value: T)

  /** A computation that either returns a value or raises. */
  datatype Result<T> = Ok(value: T) | Err(error: Error) {
    predicate IsFailure() {
      Err?
    }

    function PropagateFailure<U>(): Result<U>
      requires Err?
    {
      Err(error)
    }

    function Extract(): T
      requires Ok?
    {
      value
    }
  }

  /** `m[k]` on a Python dict: a KeyError when `k` is absent. */
  function Lookup<K, V>(m: map<K, V>, k: K, context: string): (r: Result<V>)
    ensures r.Ok? <==> k in m
    ensures r.Ok? ==> r.value == m[k]
  {
    if k in m then Ok(m[k]) else Err(KeyError(context))
  }

  /**
   * `[f(x) for x in xs]` where `f` may raise: the values in order, or the error
   * of the first element on which `f` raises.
   */
  function MapAll<X, Y>(xs: seq<X>, f: X -> Result<Y>): (r: Result<seq<Y>>)
    ensures r.Ok? <==> forall i :: 0 <= i < |xs| ==> f(xs[i]).Ok?
    ensures r.Ok? ==> |r.value| == |xs| && forall i :: 0 <= i < |xs| ==> r.value[i] == f(xs[i]).value
    ensures r.Err? ==>
              exists i :: 0 <= i < |xs| && f(xs[i]) == Err(r.error) && forall j :: 0 <= j < i ==> f(xs[j]).Ok?
  {
    if xs == [] then Ok([])
    else match f(xs[0])
      case Err(e) => Err(e)
      case Ok(y) =>
        var rest := MapAll(xs[1..], f);
        assert forall i :: 1 <= i < |xs| ==> xs[i] == xs[1..][i - 1];
        match rest
        case Err(e) =>
          var i :| 0 <= i < |xs[1..]| && f(xs[1..][i]) == Err(e) && forall j :: 0 <= j < i ==> f(xs[1..][j]).Ok?;
          assert f(xs[i + 1]) == Err(e);
          Err(e)
        case Ok(ys) => Ok([y] + ys)
  }

  /** When `f` succeeds on the first `i` elements and raises on element `i`, the map raises that error. */
  lemma MapAllFirstError<X, Y>(xs: seq<X>, f: X -> Result<Y>, i: nat)
    requires i < |xs| && f(xs[i]).Err?
    requires forall j :: 0 <= j < i ==> f(xs[j]).Ok?
    ensures MapAll(xs, f) == Err(f(xs[i]).error)
  {
    var r := MapAll(xs, f);
    var k :| 0 <= k < |xs| && f(xs[k]) == Err(r.error) && forall j :: 0 <= j < k ==> f(xs[j]).Ok?;
    assert k == i;
  }

  /** When `f` gives `ys[i]` on every element `i`, the map gives `ys`. */
  lemma MapAllOfValues<X, Y>(xs: seq<X>, f: X -> Result<Y>, ys: seq<Y>)
    requires |ys| == |xs| && forall i :: 0 <= i < |xs| ==> f(xs[i]) == Ok(ys[i])
    ensures MapAll(xs, f) == Ok(ys)
  {
    var r := MapAll(xs, f);
    assert r.Ok? && |r.value| == |ys|;
    assert forall i :: 0 <= i < |xs| ==> r.value[i] == ys[i];
    assert r.value == ys;
  }
}
