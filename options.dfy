/** Optional values and reads of the document model that may raise. */
module Options {

  datatype Option<+T> = None | Some(value: T)

  /** One read of a document-model attribute: it yields a value, or it raises
      (a missing or malformed sub-structure). The extraction code swallows the
      exception, so a `Malformed` read ends the accumulation it occurs in. */
  datatype Probe<+T> = Ok(value: T) | Malformed

  /** Every read in `ps` succeeds. */
  predicate AllOk<T>(ps: seq<Probe<T>>) {
    ps == [] || (AllOk(ps[..|ps| - 1]) && ps[|ps| - 1].Ok?)
  }

  lemma AllOkSnoc<T>(ps: seq<Probe<T>>, p: Probe<T>)
    ensures AllOk(ps + [p]) <==> AllOk(ps) && p.Ok?
  {
    assert (ps + [p])[..|ps|] == ps;
  }

  lemma {:induction false} AllOkAt<T>(ps: seq<Probe<T>>)
    requires AllOk(ps)
    ensures forall i :: 0 <= i < |ps| ==> ps[i].Ok?
  {
    if ps != [] {
      AllOkAt(ps[..|ps| - 1]);
      assert forall i :: 0 <= i < |ps| - 1 ==> ps[..|ps| - 1][i] == ps[i];
    }
  }

  /** Index of the first read that raises, or |ps| when none does: the number
      of reads whose results are accumulated before the exception. */
  function FirstMalformed<T>(ps: seq<Probe<T>>): (n: nat)
    ensures n <= |ps|
    ensures AllOk(ps[..n])
    ensures n < |ps| ==> ps[n].Malformed?
  {
    if ps == [] then 0
    else
      var front := ps[..|ps| - 1];
      var m := FirstMalformed(front);
      assert front[..m] == ps[..m];
      if m < |front| then m
      else if ps[|ps| - 1].Malformed? then |front|
      else
        assert ps[..|ps|][..|ps| - 1] == front;
        |ps|
  }

  /** The stopping point is determined by the reads: an index before which
      every read succeeds and at which a read raises (or the reads end) is it. */
  lemma FirstMalformedAt<T>(ps: seq<Probe<T>>, k: nat)
    requires k <= |ps|
    requires AllOk(ps[..k])
    requires k < |ps| ==> ps[k].Malformed?
    ensures FirstMalformed(ps) == k
  {
    var n := FirstMalformed(ps);
    AllOkAt(ps[..k]);
    AllOkAt(ps[..n]);
    assert forall i :: 0 <= i < k ==> ps[i] == ps[..k][i];
    assert forall i :: 0 <= i < n ==> ps[i] == ps[..n][i];
  }

  /** Reads that all succeed, followed by one that raises or by nothing: the
      first raising read is the one right after them. */
  lemma StopsAfter<T>(done: seq<Probe<T>>, rest: seq<Probe<T>>)
    requires AllOk(done)
    requires rest == [] || rest[0].Malformed?
    ensures FirstMalformed(done + rest) == |done|
    ensures (done + rest)[..|done|] == done
  {
    assert (done + rest)[..|done|] == done;
    FirstMalformedAt(done + rest, |done|);
  }

  /** Concatenation regroups; stated once so that proofs need not rediscover
      it element by element. */
  lemma ConcatAssoc<T>(x: seq<T>, y: seq<T>, z: seq<T>)
    ensures x + (y + z) == (x + y) + z
  {
  }
}
