/**
 * `MultiWriter`: a writer that forwards every `write` and `flush` to two
 * writers, used to feed one stream of bytes to a hasher and a compressor in
 * the same pass. The two writers are modelled as `Sink` objects whose
 * behaviour is fixed by their fields: the bytes they have taken, how many
 * bytes one `write` call takes at most, and whether their calls fail.
 */
module MultiWriter {
  import opened Common

  /** The outcome of one `std::io::Write` call. */
  datatype IoResult<T> = IoOk(value: T) | IoErr(reason: string)

  /**
   * `Result::and`: the first result's error when it failed, otherwise the
   * second result, whatever the first one held.
   */
  function And<T, U>(one: IoResult<T>, two: IoResult<U>): (r: IoResult<U>)
    ensures r.IoErr? <==> one.IoErr? || two.IoErr?
    ensures one.IoErr? ==> r.reason == one.reason
    ensures one.IoOk? ==> r == two
  {
    match one
    case IoErr(reason) => IoErr(reason)
    case IoOk(_) => two
  }

  /**
   * A writer as the tee sees it. A `write` call takes the first
   * `min(|buf|, limit)` bytes of its buffer and reports that count (a short
   * write when the buffer is longer than `limit`), or fails without taking
   * anything when `failing` is set; `flush` counts its calls and fails when
   * `flushFailing` is set.
   */
  class Sink {
    var data: seq<byte>
    var limit: nat
    var failing: bool
    var flushes: nat
    var flushFailing: bool

    ghost predicate Valid()
      reads this
    {
      limit > 0
    }

    constructor (limit: nat, failing: bool, flushFailing: bool)
      requires limit > 0
      ensures Valid()
      ensures data == [] && flushes == 0
      ensures this.limit == limit && this.failing == failing && this.flushFailing == flushFailing
    {
      this.data := [];
      this.limit := limit;
      this.failing := failing;
      this.flushes := 0;
      this.flushFailing := flushFailing;
    }

    /** How many bytes of `buf` one `write` call takes. */
    function Takes(buf: seq<byte>): (n: nat)
      reads this
      ensures n <= |buf|
      ensures !failing && buf != [] && Valid() ==> n > 0
    {
      if failing then 0 else Portion(buf, limit)
    }

    /** What one `write` call of `buf` reports. */
    function WriteReply(buf: seq<byte>): IoResult<nat>
      reads this
    {
      if failing then IoErr("write failed") else IoOk(Takes(buf))
    }

    function FlushReply(): IoResult<()>
      reads this
    {
      if flushFailing then IoErr("flush failed") else IoOk(())
    }

    method Write(buf: seq<byte>) returns (r: IoResult<nat>)
      modifies this`data
      ensures data == old(data) + buf[..old(Takes(buf))]
      ensures r == old(WriteReply(buf))
    {
      var n := Takes(buf);
      data := data + buf[..n];
      r := if failing then IoErr("write failed") else IoOk(n);
    }

    method Flush() returns (r: IoResult<()>)
      modifies this`flushes
      ensures flushes == old(flushes) + 1
      ensures r == FlushReply()
    {
      flushes := flushes + 1;
      r := if flushFailing then IoErr("flush failed") else IoOk(());
    }

    /**
     * `Write::write_all` as the standard library provides it: call `write`
     * on what is left until nothing is left, stopping at the first error.
     */
    method WriteAll(buf: seq<byte>) returns (r: IoResult<()>)
      requires Valid()
      modifies this`data
      ensures r.IoOk? <==> buf == [] || !failing
      ensures r.IoOk? ==> data == old(data) + buf
      ensures r.IoErr? ==> data == old(data)
    {
      var rest := buf;
      ghost var done := 0;
      while rest != []
        invariant done <= |buf| && rest == buf[done..]
        invariant data == old(data) + buf[..done]
        invariant rest != buf ==> !failing
        decreases |rest|
      {
        var w := Write(rest);
        match w
        case IoErr(reason) =>
          return IoErr(reason);
        case IoOk(n) =>
          Consume(buf, done, n);
          AppendAssoc(old(data), buf[..done], rest[..n]);
          rest := rest[n..];
          done := done + n;
      }
      assert buf[..|buf|] == buf;
      r := IoOk(());
    }
  }

  /**
   * What the first writer receives when the standard `write_all` loop drives
   * a tee that reports the SECOND writer's count: each round the first
   * writer takes up to `firstLimit` bytes of what is left, and what is left
   * shrinks by what the second writer took.
   */
  function FedToFirst(rest: seq<byte>, firstLimit: nat, secondLimit: nat): seq<byte>
    requires secondLimit > 0
    decreases |rest|
  {
    if rest == [] then []
    else
      rest[..Portion(rest, firstLimit)] + FedToFirst(rest[Portion(rest, secondLimit)..], firstLimit, secondLimit)
  }

  /** The amount a writer with the given limit takes from `rest`. */
  function Portion(rest: seq<byte>, limit: nat): (n: nat)
    ensures n <= |rest| && (n == |rest| || n == limit)
  {
    if |rest| < limit then |rest| else limit
  }

  lemma FedToFirstUnfold(rest: seq<byte>, firstLimit: nat, secondLimit: nat)
    requires secondLimit > 0 && rest != []
    ensures FedToFirst(rest, firstLimit, secondLimit)
      == rest[..Portion(rest, firstLimit)] + FedToFirst(rest[Portion(rest, secondLimit)..], firstLimit, secondLimit)
  {
  }

  lemma FedToFirstAdvance(buf: seq<byte>, got: seq<byte>, rest: seq<byte>, firstLimit: nat, secondLimit: nat)
    requires secondLimit > 0 && rest != []
    requires got + FedToFirst(rest, firstLimit, secondLimit) == FedToFirst(buf, firstLimit, secondLimit)
    ensures (got + rest[..Portion(rest, firstLimit)]) + FedToFirst(rest[Portion(rest, secondLimit)..], firstLimit, secondLimit)
      == FedToFirst(buf, firstLimit, secondLimit)
  {
    FedToFirstUnfold(rest, firstLimit, secondLimit);
    AppendAssoc(got, rest[..Portion(rest, firstLimit)], FedToFirst(rest[Portion(rest, secondLimit)..], firstLimit, secondLimit));
  }

  lemma AppendAssoc<T>(a: seq<T>, b: seq<T>, c: seq<T>)
    ensures a + (b + c) == (a + b) + c
  {
  }

  /** Taking `n` more bytes of what is left of `buf` after `done`. */
  lemma Consume<T>(buf: seq<T>, done: nat, n: nat)
    requires done <= |buf| && n <= |buf| - done
    ensures buf[done..][n..] == buf[done + n..]
    ensures buf[..done] + buf[done..][..n] == buf[..done + n]
  {
    assert buf[done..][..n] == buf[done..done + n];
  }

  /** When both writers take the same amount per call, the first one receives the stream exactly once. */
  lemma {:induction false} FedToFirstSameLimits(rest: seq<byte>, limit: nat)
    requires limit > 0
    ensures FedToFirst(rest, limit, limit) == rest
    decreases |rest|
  {
    if rest != [] {
      var a := if |rest| < limit then |rest| else limit;
      FedToFirstSameLimits(rest[a..], limit);
      assert rest[..a] + rest[a..] == rest;
    }
  }

  /**
   * A hasher takes every byte it is given, so when the compressor in second
   * place reports a short write, the hasher receives some bytes twice: it
   * is fed more bytes than the stream holds.
   */
  lemma {:induction false} ShortSecondWriteDuplicates(rest: seq<byte>, firstLimit: nat, secondLimit: nat)
    requires 0 < secondLimit < |rest| <= firstLimit
    ensures |FedToFirst(rest, firstLimit, secondLimit)| > |rest|
  {
    var tail := rest[secondLimit..];
    assert tail != [];
    assert |FedToFirst(tail, firstLimit, secondLimit)| >= 1;
  }

  /** The smallest instance: two bytes, a compressor that takes one byte per call. */
  lemma ShortSecondWriteExample()
    ensures FedToFirst([1, 2], 4096, 1) == [1, 2, 2]
  {
    var s: seq<byte> := [1, 2];
    assert s[1..] == [2];
    assert s[1..][1..] == [];
  }

  /** The tee of `multi_writer.rs`: two distinct writers. */
  class MultiWriter {
    const one: Sink
    const two: Sink

    ghost predicate Valid()
      reads this, one, two
    {
      one != two && one.Valid() && two.Valid()
    }

    constructor (one: Sink, two: Sink)
      requires one != two && one.Valid() && two.Valid()
      ensures this.one == one && this.two == two && Valid()
    {
      this.one := one;
      this.two := two;
    }

    /**
     * `write`: the same buffer goes to the first writer, then to the second
     * one even when the first failed; the result is `one.and(two)`.
     */
    method Write(buf: seq<byte>) returns (r: IoResult<nat>)
      requires Valid()
      modifies one`data, two`data
      ensures one.data == old(one.data) + buf[..old(one.Takes(buf))]
      ensures two.data == old(two.data) + buf[..old(two.Takes(buf))]
      ensures r == And(old(one.WriteReply(buf)), old(two.WriteReply(buf)))
      ensures r.IoOk? ==> r.value == old(two.Takes(buf))
    {
      var first := one.Write(buf);
      var second := two.Write(buf);
      r := And(first, second);
    }

    /** `flush`: both writers are flushed, always both; the result is `one.and(two)`. */
    method Flush() returns (r: IoResult<()>)
      requires Valid()
      modifies one`flushes, two`flushes
      ensures one.flushes == old(one.flushes) + 1 && two.flushes == old(two.flushes) + 1
      ensures r == And(one.FlushReply(), two.FlushReply())
    {
      var first := one.Flush();
      var second := two.Flush();
      r := And(first, second);
    }

    /**
     * The standard `write_all` loop run on the tee, as `std::io::copy` does
     * for every chunk it reads: the second writer receives the stream once,
     * the first writer receives `FedToFirst` of it.
     */
    method WriteAll(buf: seq<byte>) returns (r: IoResult<()>)
      requires Valid()
      modifies one`data, two`data
      ensures r.IoOk? <==> buf == [] || (!one.failing && !two.failing)
      ensures r.IoOk? ==> two.data == old(two.data) + buf
      ensures r.IoOk? ==> one.data == old(one.data) + FedToFirst(buf, one.limit, two.limit)
      ensures r.IoErr? ==> one.data == old(one.data) + buf[..old(one.Takes(buf))]
      ensures r.IoErr? ==> two.data == old(two.data) + buf[..old(two.Takes(buf))]
    {
      ghost var first, second := one.limit, two.limit;
      ghost var got: seq<byte> := [];
      ghost var done := 0;
      var rest := buf;
      while rest != []
        invariant one.limit == first && two.limit == second
        invariant done <= |buf| && rest == buf[done..]
        invariant two.data == old(two.data) + buf[..done]
        invariant one.data == old(one.data) + got
        invariant got + FedToFirst(rest, first, second) == FedToFirst(buf, first, second)
        invariant rest != buf ==> !one.failing && !two.failing
        invariant rest == buf ==> got == []
        decreases |rest|
      {
        var w := Write(rest);
        match w
        case IoErr(reason) =>
          return IoErr(reason);
        case IoOk(n) =>
          FedToFirstAdvance(buf, got, rest, first, second);
          AppendAssoc(old(one.data), got, rest[..Portion(rest, first)]);
          got := got + rest[..Portion(rest, first)];
          Consume(buf, done, n);
          AppendAssoc(old(two.data), buf[..done], rest[..n]);
          rest := rest[n..];
          done := done + n;
      }
      assert buf[..|buf|] == buf;
      assert got + [] == got;
      r := IoOk(());
    }

    /**
     * The tee as evidently intended: each writer is given the whole buffer
     * with `write_all`, both are always written, the first error wins, and
     * success reports the whole buffer as written.
     */
    method WriteWhole(buf: seq<byte>) returns (r: IoResult<nat>)
      requires Valid()
      modifies one`data, two`data
      ensures r.IoOk? <==> buf == [] || (!one.failing && !two.failing)
      ensures r.IoOk? ==> r.value == |buf|
      ensures r.IoOk? ==> one.data == old(one.data) + buf && two.data == old(two.data) + buf
    {
      var first := one.WriteAll(buf);
      var second := two.WriteAll(buf);
      r := match And(first, second)
        case IoErr(reason) => IoErr(reason)
        case IoOk(_) => IoOk(|buf|);
    }

    /**
     * The standard `write_all` loop run on the corrected tee: each writer
     * receives every byte of the stream exactly once.
     */
    method WriteAllWhole(buf: seq<byte>) returns (r: IoResult<()>)
      requires Valid()
      modifies one`data, two`data
      ensures r.IoOk? <==> buf == [] || (!one.failing && !two.failing)
      ensures r.IoOk? ==> one.data == old(one.data) + buf && two.data == old(two.data) + buf
    {
      var rest := buf;
      while rest != []
        invariant rest == [] || rest == buf
        invariant rest == buf ==> one.data == old(one.data) && two.data == old(two.data)
        invariant rest == [] ==> buf == [] || (!one.failing && !two.failing)
        invariant rest == [] ==> one.data == old(one.data) + buf && two.data == old(two.data) + buf
        decreases |rest|
      {
        var w := WriteWhole(rest);
        match w
        case IoErr(reason) =>
          return IoErr(reason);
        case IoOk(n) =>
          rest := rest[n..];
      }
      r := IoOk(());
    }
  }
}
