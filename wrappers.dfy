/** Failure-compatible result types shared by every puzzle module.
    Rust's `Option` becomes `Option`, `anyhow::Result` becomes `Result`
    (the error carries the message text). */
module Wrappers {

  datatype Option<T> = None | Some(value: T)

  datatype Result<T> = Ok(value: T) | Err(error: string)

  /** `Iterator<Item = Result<T>>::collect::<Result<Vec<T>>>()`: all values,
      or the first error in order. */
  function Collect<T>(rs: seq<Result<T>>): (r: Result<seq<T>>)
    ensures r.Ok? <==> forall i | 0 <= i < |rs| :: rs[i].Ok?
    ensures r.Ok? ==> |r.value| == |rs| && forall i | 0 <= i < |rs| :: r.value[i] == rs[i].value
    ensures r.Err? ==> exists i | 0 <= i < |rs| :: rs[i].Err? && r.error == rs[i].error
                                                && forall j | 0 <= j < i :: rs[j].Ok?
  {
    if rs == [] then Ok([])
    else if rs[0].Err? then Err(rs[0].error)
    else
      match Collect(rs[1..])
      case Err(e) => Err(e)
      case Ok(vs) => Ok([rs[0].value] + vs)
  }

  /** `xs.iter().map(f).collect::<Result<Vec<_>>>()`: every value, or the
      first error in order. */
  function CollectMap<A, B>(xs: seq<A>, f: A -> Result<B>): (r: Result<seq<B>>)
    ensures r.Ok? <==> forall i | 0 <= i < |xs| :: f(xs[i]).Ok?
    ensures r.Ok? ==> |r.value| == |xs| && forall i | 0 <= i < |xs| :: Ok(r.value[i]) == f(xs[i])
    ensures r.Err? ==> exists i | 0 <= i < |xs| :: f(xs[i]) == Err(r.error)
                                                && forall j | 0 <= j < i :: f(xs[j]).Ok?
  {
    if xs == [] then Ok([])
    else
      assert forall i | 1 <= i < |xs| :: xs[1..][i - 1] == xs[i];
      match f(xs[0])
      case Err(e) => Err(e)
      case Ok(v) =>
        match CollectMap(xs[1..], f)
        case Err(e) =>
          assert exists i | 1 <= i < |xs| :: f(xs[i]) == Err(e) && forall j | 0 <= j < i :: f(xs[j]).Ok? by {
            var k :| 0 <= k < |xs| - 1 && f(xs[1..][k]) == Err(e) && forall j | 0 <= j < k :: f(xs[1..][j]).Ok?;
            assert forall j | 1 <= j < k + 1 :: f(xs[j]) == f(xs[1..][j - 1]);
          }
          Err(e)
        case Ok(vs) => Ok([v] + vs)
  }

  /** The first error, after values only, is the error collected. */
  lemma {:induction false} CollectMapFirstErr<A, B>(xs: seq<A>, f: A -> Result<B>, k: nat)
    requires k < |xs| && f(xs[k]).Err? && forall j | 0 <= j < k :: f(xs[j]).Ok?
    ensures CollectMap(xs, f) == Err(f(xs[k]).error)
  {
    if k > 0 {
      assert forall j | 0 <= j < k - 1 :: xs[1..][j] == xs[j + 1];
      CollectMapFirstErr(xs[1..], f, k - 1);
    }
  }

  /** Collecting one more value onto a prefix that collected. */
  lemma CollectMapSnoc<A, B>(xs: seq<A>, f: A -> Result<B>, k: nat, vs: seq<B>, v: B)
    requires k < |xs| && CollectMap(xs[..k], f) == Ok(vs) && f(xs[k]) == Ok(v)
    ensures CollectMap(xs[..k + 1], f) == Ok(vs + [v])
  {
    assert forall j | 0 <= j < k :: xs[..k + 1][j] == xs[..k][j];
    var r := CollectMap(xs[..k + 1], f);
    assert r.value == vs + [v];
  }

  /** `Option<T>::ok_or` / `anyhow::Context::context`: a missing value becomes an error. */
  function Context<T>(o: Option<T>, msg: string): (r: Result<T>)
    ensures r.Ok? <==> o.Some?
    ensures r.Ok? ==> r.value == o.value
    ensures r.Err? ==> r.error == msg
  {
    match o
    case Some(v) => Ok(v)
    case None => Err(msg)
  }
}
