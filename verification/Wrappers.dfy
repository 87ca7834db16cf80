/** Result types shared by every component of the model. */
module Wrappers {

  datatype Option<+T> = None | Some(value: T)

  datatype Result<+T, +E> = Ok(value: T) | Err(error: E)

  /** The values present, in order. */
  function Collect<T>(options: seq<Option<T>>): seq<T> {
    if options == [] then []
    else Collect(options[..|options| - 1]) +
         match options[|options| - 1] case Some(x) => [x] case None => []
  }

  lemma {:induction false} CollectPresent<T>(options: seq<Option<T>>)
    requires forall i :: 0 <= i < |options| ==> options[i].Some?
    ensures |Collect(options)| == |options|
    ensures forall i :: 0 <= i < |options| ==> Collect(options)[i] == options[i].value
    decreases |options|
  {
    if options != [] {
      CollectPresent(options[..|options| - 1]);
    }
  }

  lemma {:induction false} CollectSkips<T>(absent: seq<Option<T>>, options: seq<Option<T>>)
    requires forall i :: 0 <= i < |absent| ==> absent[i].None?
    ensures Collect(absent + options) == Collect(options)
    decreases |options|, |absent|
  {
    var all := absent + options;
    if options != [] {
      var n := |options| - 1;
      assert all[..|all| - 1] == absent + options[..n];
      CollectSkips(absent, options[..n]);
    } else if absent != [] {
      assert all == absent && absent[..|absent| - 1] + options == absent[..|absent| - 1];
      CollectSkips(absent[..|absent| - 1], options);
    }
  }

  lemma {:induction false} CollectMembers<T>(options: seq<Option<T>>, x: T)
    requires x in Collect(options)
    ensures Some(x) in options
    decreases |options|
  {
    var n := |options| - 1;
    if options[n] != Some(x) { CollectMembers(options[..n], x); }
  }

  /** Applying a function to each element. */
  function Each<S, T>(f: S -> T, xs: seq<S>): (r: seq<T>)
    ensures |r| == |xs| && forall i :: 0 <= i < |xs| ==> r[i] == f(xs[i])
  {
    seq(|xs|, i requires 0 <= i < |xs| => f(xs[i]))
  }

  /** Elements without a value make no difference in front. */
  lemma EachSkips<S, T>(f: S -> Option<T>, absent: seq<S>, xs: seq<S>)
    requires forall i :: 0 <= i < |absent| ==> f(absent[i]).None?
    ensures Collect(Each(f, absent + xs)) == Collect(Each(f, xs))
  {
    assert Each(f, absent + xs) == Each(f, absent) + Each(f, xs);
    CollectSkips(Each(f, absent), Each(f, xs));
  }
}
