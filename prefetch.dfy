/**
 * ImageCacheLoader: the slideshow's prefetch thread. requestImage puts a
 * request at the back of a short FIFO queue, and run takes requests from
 * the front and decodes them.
 */
module Prefetch {
  import opened Wrappers
  import opened Media

  /** One request: a source path and the size to fit the decoded image into. */
  datatype Request = Request(path: string, targetSize: Size)

  /** requestImage drops the oldest request first when the queue is longer than this. */
  const DropAbove := 5

  /** The largest queue requestImage can build from a short one: one past DropAbove. */
  const Capacity := DropAbove + 1

  /**
   * The queue after requestImage(r): the new request at the back, exactly
   * one request dropped from the front iff the queue held more than five,
   * and the others kept in order.
   */
  function Submit(q: seq<Request>, r: Request): (q': seq<Request>)
    ensures |q'| > 0 && q'[|q'| - 1] == r
    ensures |q'| == if |q| > DropAbove then |q| else |q| + 1
    ensures q'[..|q'| - 1] == q[|q| - (|q'| - 1)..]
  {
    if |q| > DropAbove then q[1..] + [r] else q + [r]
  }

  /** The queue after a series of requestImage calls. */
  function SubmitAll(q: seq<Request>, rs: seq<Request>): seq<Request>
    decreases |rs|
  {
    if rs == [] then q else SubmitAll(Submit(q, rs[0]), rs[1..])
  }

  /** s is what is left of t once some of its first elements are gone. */
  predicate IsSuffix<T(==)>(s: seq<T>, t: seq<T>) {
    |s| <= |t| && s == t[|t| - |s|..]
  }

  /** From a queue of at most six, any number of requests leaves at most six. */
  lemma {:induction false} SubmitAllBounded(q: seq<Request>, rs: seq<Request>)
    requires |q| <= Capacity
    ensures |SubmitAll(q, rs)| <= Capacity
    decreases |rs|
  {
    if rs != [] {
      SubmitAllBounded(Submit(q, rs[0]), rs[1..]);
    }
  }

  /** One request keeps the queue a suffix of the old queue followed by the request. */
  lemma SubmitIsSuffix(q: seq<Request>, r: Request)
    ensures IsSuffix(Submit(q, r), q + [r])
  {
    if |q| > DropAbove {
      assert q[1..] + [r] == (q + [r])[1..];
    }
  }

  /**
   * Requests keep their relative order: the queue is always the latest
   * requests, a suffix of the old queue followed by the new ones.
   */
  lemma {:induction false} SubmitAllKeepsOrder(q: seq<Request>, rs: seq<Request>)
    ensures IsSuffix(SubmitAll(q, rs), q + rs)
    decreases |rs|
  {
    if rs != [] {
      var q' := Submit(q, rs[0]);
      var u := SubmitAll(q', rs[1..]);
      assert IsSuffix(u, q + [rs[0]] + rs[1..]) by {
        SubmitAllKeepsOrder(q', rs[1..]);
        SubmitIsSuffix(q, rs[0]);
        SuffixAppend(q', q + [rs[0]], rs[1..], u);
      }
      assert q + [rs[0]] + rs[1..] == q + rs;
    }
  }

  /** After any non-empty series of requests, the queue ends with the last one made. */
  lemma {:induction false} SubmitAllEndsWithLast(q: seq<Request>, rs: seq<Request>)
    requires rs != []
    ensures SubmitAll(q, rs) != [] && SubmitAll(q, rs)[|SubmitAll(q, rs)| - 1] == rs[|rs| - 1]
    decreases |rs|
  {
    var q' := Submit(q, rs[0]);
    if rs[1..] == [] {
      assert SubmitAll(q, rs) == SubmitAll(q', []) == q';
    } else {
      SubmitAllEndsWithLast(q', rs[1..]);
    }
  }

  lemma SuffixAppend<T>(s: seq<T>, t: seq<T>, tail: seq<T>, u: seq<T>)
    requires IsSuffix(s, t) && IsSuffix(u, s + tail)
    ensures IsSuffix(u, t + tail)
  {
    assert (t + tail)[|t| - |s|..] == s + tail;
    assert (t + tail)[|t + tail| - |u|..] == (s + tail)[|s + tail| - |u|..];
  }

  /**
   * The queue holds six requests, not five: F joins A..E without a drop,
   * and only G pushes A out.
   */
  lemma SixthRequestIsKept(a: Request, b: Request, c: Request, d: Request, e: Request, f: Request, g: Request)
    ensures SubmitAll([a, b, c, d, e], [f]) == [a, b, c, d, e, f]
    ensures SubmitAll([a, b, c, d, e], [f, g]) == [b, c, d, e, f, g]
  {
    var q := Submit([a, b, c, d, e], f);
    assert q == [a, b, c, d, e, f];
    assert [f, g][1..] == [g] && [g][1..] == [];
    assert SubmitAll([a, b, c, d, e], [f, g]) == SubmitAll(q, [g]) == SubmitAll(Submit(q, g), []);
    assert q[1..] + [g] == [b, c, d, e, f, g];
  }

  /** What QImageReader does with a request: read the native size, fit it, decode. */
  datatype Reader = Reader(
    size: string -> Size,
    scaled: (Size, Size) -> Size,
    read: (string, Size) -> Option<Image>)

  /** The imageLoaded signal for one request, if its file decodes. */
  function Loaded(rd: Reader, r: Request): Option<(string, Image)> {
    var orig := rd.size(r.path);
    if !orig.IsValid() then None
    else match rd.read(r.path, rd.scaled(orig, r.targetSize))
      case None => None
      case Some(img) => Some((r.path, img))
  }

  /** The signals for a run of requests served in order. */
  function LoadedAll(rd: Reader, reqs: seq<Request>): (out: seq<(string, Image)>)
    ensures |out| <= |reqs|
  {
    if reqs == [] then []
    else
      var o := Loaded(rd, reqs[|reqs| - 1]);
      LoadedAll(rd, reqs[..|reqs| - 1]) + (if o.Some? then [o.value] else [])
  }

  /** Some request in reqs is for path p. */
  predicate Requested(reqs: seq<Request>, p: string) {
    exists j :: 0 <= j < |reqs| && reqs[j].path == p
  }

  /** Every signal carries the path of a request that was served. */
  lemma {:induction false} LoadedAllPaths(rd: Reader, reqs: seq<Request>)
    ensures forall i :: 0 <= i < |LoadedAll(rd, reqs)| ==> Requested(reqs, LoadedAll(rd, reqs)[i].0)
  {
    if reqs != [] {
      var init := reqs[..|reqs| - 1];
      LoadedAllPaths(rd, init);
      var out := LoadedAll(rd, reqs);
      var o := Loaded(rd, reqs[|reqs| - 1]);
      assert out == LoadedAll(rd, init) + (if o.Some? then [o.value] else []);
      forall i | 0 <= i < |out| ensures Requested(reqs, out[i].0) {
        if i < |LoadedAll(rd, init)| {
          var j :| 0 <= j < |init| && init[j].path == LoadedAll(rd, init)[i].0;
          assert reqs[j] == init[j];
        } else {
          assert out[i] == o.value;
          assert reqs[|reqs| - 1].path == out[i].0;
        }
      }
    }
  }

  /** The number of requests run takes before it is interrupted or finds the queue empty. */
  function Served(interrupt: nat -> bool, len: nat, k: nat): (j: nat)
    requires k <= len
    ensures k <= j <= len
    ensures forall i :: k <= i < j ==> !interrupt(i)
    ensures j < len ==> interrupt(j)
    decreases len - k
  {
    if k == len || interrupt(k) then k else Served(interrupt, len, k + 1)
  }

  class ImageCacheLoader {
    /** m_queue: oldest request first. */
    var queue: seq<Request>

    /** The queue can hold seven only if it was filled some other way. */
    predicate Bounded()
      reads this
    {
      |queue| <= Capacity
    }

    constructor ()
      ensures queue == []
    {
      queue := [];
    }

    /** requestImage(path, targetSize). */
    method RequestImage(path: string, targetSize: Size)
      modifies this
      ensures queue == Submit(old(queue), Request(path, targetSize))
      ensures old(Bounded()) ==> Bounded()
    {
      if |queue| > DropAbove {
        queue := queue[1..];
      }
      queue := queue + [Request(path, targetSize)];
    }

    /** The locked part of one turn of run: take the oldest request, if there is one. */
    method TakeNext() returns (req: Option<Request>)
      modifies this
      ensures old(queue) == [] ==> req == None && queue == []
      ensures old(queue) != [] ==> req == Some(old(queue)[0]) && queue == old(queue)[1..]
    {
      if queue == [] {
        return None;
      }
      req := Some(queue[0]);
      queue := queue[1..];
    }

    /**
     * run() until it is interrupted (interrupt(k) is the k-th check) or it
     * has emptied the queue and waits: the requests taken are the oldest
     * ones, and the signals are those of the requests that decode, in order.
     */
    method Run(interrupt: nat -> bool, rd: Reader) returns (loaded: seq<(string, Image)>)
      modifies this
      ensures var k := Served(interrupt, |old(queue)|, 0);
        queue == old(queue)[k..] && loaded == LoadedAll(rd, old(queue)[..k])
    {
      loaded := [];
      var k := 0;
      while !interrupt(k) && queue != []
        invariant k <= |old(queue)| && queue == old(queue)[k..]
        invariant forall i :: 0 <= i < k ==> !interrupt(i)
        invariant loaded == LoadedAll(rd, old(queue)[..k])
        decreases |queue|
      {
        var req := TakeNext();
        var r := req.value;
        var orig := rd.size(r.path);
        if orig.IsValid() {
          var scaled := rd.scaled(orig, r.targetSize);
          var img := rd.read(r.path, scaled);
          if img.Some? {
            loaded := loaded + [(r.path, img.value)];
          }
        }
        assert old(queue)[..k + 1][..k] == old(queue)[..k];
        k := k + 1;
      }
    }
  }
}
