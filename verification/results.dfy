/** Optional values and success-or-error results shared by every module. */
module Results {

  datatype Option<+T> = None | Some(value: T)

  datatype Result<+T, +E> = Ok(value: T) | Err(error: E)

  /** The values of the `Some` entries, in order. */
  function Present<T>(opts: seq<Option<T>>): (r: seq<T>)
    ensures |r| <= |opts|
    ensures forall j :: 0 <= j < |r| ==> Some(r[j]) in opts
    ensures forall i :: 0 <= i < |opts| && opts[i].Some? ==> opts[i].value in r
  {
    if |opts| == 0 then []
    else
      var rest := Present(opts[1..]);
      assert forall x :: x in opts[1..] ==> x in opts;
      assert forall i :: 1 <= i < |opts| ==> opts[i] == opts[1..][i - 1];
      match opts[0]
      case None => rest
      case Some(b) => [b] + rest
  }

  /** An absent value contributes nothing and a present one itself. */
  lemma PresentOne<T>(o: Option<T>)
    ensures Present([o]) == if o.Some? then [o.value] else []
  {
    assert [o][1..] == [];
  }

  /** The values of two runs of options are those of the first, then those of the second. */
  lemma {:induction false} PresentAppend<T>(a: seq<Option<T>>, b: seq<Option<T>>)
    ensures Present(a + b) == Present(a) + Present(b)
    decreases |a|
  {
    if |a| == 0 {
      assert a + b == b;
    } else {
      assert (a + b)[1..] == a[1..] + b;
      PresentAppend(a[1..], b);
    }
  }
}
