/**
 * The stream adapter of ble/transport.go: up to three characteristics bound
 * by role, and a first-in first-out queue of notification payloads that
 * `Read` drains before it falls back to the read characteristic.
 *
 * The mutex and the 100 ms sleep of the polling loop are sequential here:
 * a context is done from a given poll on, and the payloads the notify
 * handler receives during each sleep are an input of `Read`. The bound
 * characteristics' own operations are inputs too: the error their
 * `Notify` returns, the answer of their `Read`, and their writers.
 */
module Transport {
  import opened Wrappers
  import opened Errors
  import Characteristics

  type Bytes = seq<bv8>

  /** The three roles a characteristic can be bound to. */
  datatype Role = ReadRole | WriteRole | NotifyRole

  /** `TransportOption`: the three option constructors, each binding one role. */
  datatype TransportOption =
    | WithReadCharacteristic(c: Characteristics.Characteristic)
    | WithWriteCharacteristic(c: Characteristics.Characteristic)
    | WithNotifyCharacteristic(c: Characteristics.Characteristic)

  function RoleOf(o: TransportOption): Role {
    match o
    case WithReadCharacteristic(_) => ReadRole
    case WithWriteCharacteristic(_) => WriteRole
    case WithNotifyCharacteristic(_) => NotifyRole
  }

  /** The characteristic the options leave bound to `role`: the last option for it, if any. */
  function LastFor(opts: seq<TransportOption>, role: Role): (r: Option<Characteristics.Characteristic>)
    ensures r.None? <==> forall i :: 0 <= i < |opts| ==> RoleOf(opts[i]) != role
    ensures r.Some? ==> exists i :: 0 <= i < |opts| && RoleOf(opts[i]) == role && opts[i].c == r.value
  {
    if opts == [] then None
    else
      var last := opts[|opts| - 1];
      var r := if RoleOf(last) == role then Some(last.c) else LastFor(opts[..|opts| - 1], role);
      assert RoleOf(last) != role ==> forall i :: 0 <= i < |opts| - 1 ==> opts[i] == opts[..|opts| - 1][i];
      r
  }

  /**
   * A later option for a role overrides an earlier one, and an option for
   * another role leaves it alone.
   */
  lemma {:induction false} LastForAppend(a: seq<TransportOption>, b: seq<TransportOption>, role: Role)
    ensures LastFor(a + b, role) == if LastFor(b, role).Some? then LastFor(b, role) else LastFor(a, role)
    decreases |b|
  {
    if b == [] {
      assert a + b == a;
    } else {
      var init := b[..|b| - 1];
      assert (a + b)[..|a + b| - 1] == a + init;
      assert (a + b)[|a + b| - 1] == b[|b| - 1];
      LastForAppend(a, init, role);
    }
  }

  /** What a role accessor returns: the bound characteristic, or `ErrNotSet`. */
  function Accessor(ch: Option<Characteristics.Characteristic>): (r: (Option<Characteristics.Characteristic>, Option<Error>))
    ensures r.0 == ch
    ensures r.1 == Some(NotSet) <==> ch.None?
    ensures ch.Some? ==> r.1 == None
  {
    if ch.None? then (None, Some(NotSet)) else (ch, None)
  }

  /** A context that is done from poll `doneAt` on, reporting `err`. */
  datatype Ctx = Ctx(doneAt: nat, err: CtxError)

  /** All payloads of `arrivals[k..j]`, in order. */
  function Arrived(arrivals: seq<seq<Bytes>>, k: nat, j: nat): seq<Bytes>
    requires k <= j
    decreases j - k
  {
    if k == j then [] else At(arrivals, k) + Arrived(arrivals, k + 1, j)
  }

  /** The payloads handed to the notify handler during sleep `k` (none after the list). */
  function At(arrivals: seq<seq<Bytes>>, k: nat): seq<Bytes> {
    if k < |arrivals| then arrivals[k] else []
  }

  /**
   * The polling loop of `Read` from poll `k` on, over the queue `q`: the
   * payload it returns (`None` when the context is done first) and the
   * queue it leaves.
   */
  function Poll(q: seq<Bytes>, arrivals: seq<seq<Bytes>>, k: nat, ctx: Ctx): (Option<Bytes>, seq<Bytes>)
    decreases ctx.doneAt - k
  {
    if ctx.doneAt <= k then (None, q)
    else if q != [] then (Some(q[0]), q[1..])
    else Poll(q + At(arrivals, k), arrivals, k + 1, ctx)
  }

  /** A context done at the first poll: the context error, and the queue untouched. */
  lemma PollDone(q: seq<Bytes>, arrivals: seq<seq<Bytes>>, ctx: Ctx)
    requires ctx.doneAt == 0
    ensures Poll(q, arrivals, 0, ctx) == (None, q)
  {
  }

  /** A non-empty queue and a live context: the front payload, and the rest in order. */
  lemma PollFront(q: seq<Bytes>, arrivals: seq<seq<Bytes>>, k: nat, ctx: Ctx)
    requires q != [] && k < ctx.doneAt
    ensures Poll(q, arrivals, k, ctx) == (Some(q[0]), q[1..])
  {
  }

  /**
   * Nothing is dropped: the payload returned followed by the queue left is
   * the queue before, followed by everything that arrived while polling.
   */
  lemma {:induction false} PollKeepsAll(q: seq<Bytes>, arrivals: seq<seq<Bytes>>, k: nat, ctx: Ctx)
    ensures exists j :: k <= j && Delivered(Poll(q, arrivals, k, ctx)) == q + Arrived(arrivals, k, j)
    decreases ctx.doneAt - k
  {
    if ctx.doneAt <= k {
      assert Delivered(Poll(q, arrivals, k, ctx)) == q + Arrived(arrivals, k, k);
    } else if q != [] {
      assert Delivered(Poll(q, arrivals, k, ctx)) == q + Arrived(arrivals, k, k);
    } else {
      var q' := q + At(arrivals, k);
      PollKeepsAll(q', arrivals, k + 1, ctx);
      var j :| k + 1 <= j && Delivered(Poll(q', arrivals, k + 1, ctx)) == q' + Arrived(arrivals, k + 1, j);
      assert Delivered(Poll(q, arrivals, k, ctx)) == q + Arrived(arrivals, k, j);
    }
  }

  /** The returned payload, if any, put back in front of the queue left. */
  function Delivered(p: (Option<Bytes>, seq<Bytes>)): seq<Bytes> {
    if p.0.Some? then [p.0.value] + p.1 else p.1
  }

  /** `transport`. */
  class Transport {
    var notifyBytes: seq<Bytes>
    var readCh: Option<Characteristics.Characteristic>
    var writeCh: Option<Characteristics.Characteristic>
    var notifyCh: Option<Characteristics.Characteristic>
    /** Whether `Open` has registered the notify handler with the notify characteristic. */
    var subscribed: bool

    /** `NewTransport`: an empty queue, and each role bound by the last option for it. */
    constructor (opts: seq<TransportOption>)
      ensures notifyBytes == [] && !subscribed
      ensures readCh == LastFor(opts, ReadRole)
      ensures writeCh == LastFor(opts, WriteRole)
      ensures notifyCh == LastFor(opts, NotifyRole)
    {
      notifyBytes := [];
      readCh, writeCh, notifyCh := None, None, None;
      subscribed := false;
      new;
      for i := 0 to |opts|
        invariant notifyBytes == [] && !subscribed
        invariant readCh == LastFor(opts[..i], ReadRole)
        invariant writeCh == LastFor(opts[..i], WriteRole)
        invariant notifyCh == LastFor(opts[..i], NotifyRole)
      {
        assert opts[..i + 1][..i] == opts[..i];
        Apply(opts[i]);
      }
      assert opts[..|opts|] == opts;
    }

    /** An option closure: it binds its own role and nothing else. */
    method Apply(o: TransportOption)
      modifies this
      ensures o.WithReadCharacteristic? ==> readCh == Some(o.c)
      ensures o.WithWriteCharacteristic? ==> writeCh == Some(o.c)
      ensures o.WithNotifyCharacteristic? ==> notifyCh == Some(o.c)
      ensures !o.WithReadCharacteristic? ==> readCh == old(readCh)
      ensures !o.WithWriteCharacteristic? ==> writeCh == old(writeCh)
      ensures !o.WithNotifyCharacteristic? ==> notifyCh == old(notifyCh)
      ensures notifyBytes == old(notifyBytes) && subscribed == old(subscribed)
    {
      match o
      case WithReadCharacteristic(c) => readCh := Some(c);
      case WithWriteCharacteristic(c) => writeCh := Some(c);
      case WithNotifyCharacteristic(c) => notifyCh := Some(c);
    }

    /**
     * `Open`: without a notify characteristic, success and nothing
     * registered; otherwise exactly the error of the characteristic's
     * `Notify`, the handler registered when that succeeded.
     */
    method Open(notifyErr: Option<Error>) returns (err: Option<Error>)
      modifies this
      ensures notifyCh.None? ==> err == None && subscribed == old(subscribed)
      ensures notifyCh.Some? ==> err == notifyErr && subscribed == (old(subscribed) || notifyErr.None?)
      ensures notifyBytes == old(notifyBytes)
      ensures readCh == old(readCh) && writeCh == old(writeCh) && notifyCh == old(notifyCh)
    {
      if notifyCh.Some? {
        if notifyErr.Some? {
          return notifyErr;
        }
        subscribed := true;
      }
      err := None;
    }

    /** `Close`: success, and nothing changes. */
    method Close() returns (err: Option<Error>)
      ensures err == None
    {
      err := None;
    }

    /** The notify handler: the payload goes to the back of the queue. */
    method OnNotification(buf: Bytes)
      modifies this
      ensures notifyBytes == old(notifyBytes) + [buf]
      ensures readCh == old(readCh) && writeCh == old(writeCh) && notifyCh == old(notifyCh)
      ensures subscribed == old(subscribed)
    {
      notifyBytes := notifyBytes + [buf];
    }

    /** `WriteCharacteristic`. */
    function WriteCharacteristic(): (r: (Option<Characteristics.Characteristic>, Option<Error>))
      reads this
      ensures r == Accessor(writeCh)
    {
      Accessor(writeCh)
    }

    /** `ReadCharacteristic`. */
    function ReadCharacteristic(): (r: (Option<Characteristics.Characteristic>, Option<Error>))
      reads this
      ensures r == Accessor(readCh)
    {
      Accessor(readCh)
    }

    /** `NotifyCharacteristic`. */
    function NotifyCharacteristic(): (r: (Option<Characteristics.Characteristic>, Option<Error>))
      reads this
      ensures r == Accessor(notifyCh)
    {
      Accessor(notifyCh)
    }

    /**
     * `Read`. With a notify characteristic it polls: the context error once
     * the context is done, else the front of the queue, else it sleeps while
     * `arrivals` reach the handler (only a registered handler receives
     * them). Otherwise it answers with one read of the read characteristic
     * (`charRead`), and with `ErrNotSet` when neither is bound.
     */
    method Read(ctx: Ctx, arrivals: seq<seq<Bytes>>, charRead: (Bytes, Option<Error>))
      returns (data: Bytes, err: Option<Error>)
      modifies this
      ensures notifyCh.Some? ==>
        var p := Poll(old(notifyBytes), if subscribed then arrivals else [], 0, ctx);
        notifyBytes == p.1 &&
        (p.0.Some? ==> data == p.0.value && err == None) &&
        (p.0.None? ==> data == [] && err == Some(Context(ctx.err)))
      ensures notifyCh.None? && readCh.Some? ==> (data, err) == charRead && notifyBytes == old(notifyBytes)
      ensures notifyCh.None? && readCh.None? ==> data == [] && err == Some(NotSet) && notifyBytes == old(notifyBytes)
      ensures readCh == old(readCh) && writeCh == old(writeCh) && notifyCh == old(notifyCh)
      ensures subscribed == old(subscribed)
    {
      if notifyCh.Some? {
        ghost var seen := if subscribed then arrivals else [];
        var k := 0;
        while true
          invariant Poll(notifyBytes, seen, k, ctx) == Poll(old(notifyBytes), seen, 0, ctx)
          invariant readCh == old(readCh) && writeCh == old(writeCh) && notifyCh == old(notifyCh)
          invariant subscribed == old(subscribed)
          decreases ctx.doneAt - k
        {
          if ctx.doneAt <= k {
            return [], Some(Context(ctx.err));
          }
          if 0 < |notifyBytes| {
            data := notifyBytes[0];
            notifyBytes := notifyBytes[1..];
            return data, None;
          }
          if subscribed && k < |arrivals| {
            for n := 0 to |arrivals[k]|
              invariant notifyBytes == arrivals[k][..n]
              invariant readCh == old(readCh) && writeCh == old(writeCh) && notifyCh == old(notifyCh)
              invariant subscribed == old(subscribed)
            {
              assert arrivals[k][..n + 1] == arrivals[k][..n] + [arrivals[k][n]];
              OnNotification(arrivals[k][n]);
            }
            assert arrivals[k][..|arrivals[k]|] == arrivals[k];
          }
          assert notifyBytes == [] + At(seen, k);
          k := k + 1;
        }
      } else if readCh.Some? {
        data, err := charRead.0, charRead.1;
      } else {
        data, err := [], Some(NotSet);
      }
    }

    /** `Write`: `(0, ErrNotSet)` without a write characteristic, else its answer for the data unchanged. */
    method Write(data: Bytes, write: Bytes -> (nat, Option<Error>)) returns (n: nat, err: Option<Error>)
      ensures writeCh.None? ==> n == 0 && err == Some(NotSet)
      ensures writeCh.Some? ==> (n, err) == write(data)
    {
      if writeCh.None? {
        return 0, Some(NotSet);
      }
      n, err := write(data).0, write(data).1;
    }

    /** `WriteWithoutResponse`: as `Write`, with the characteristic's unacknowledged write. */
    method WriteWithoutResponse(data: Bytes, writeNoResponse: Bytes -> (nat, Option<Error>)) returns (n: nat, err: Option<Error>)
      ensures writeCh.None? ==> n == 0 && err == Some(NotSet)
      ensures writeCh.Some? ==> (n, err) == writeNoResponse(data)
    {
      if writeCh.None? {
        return 0, Some(NotSet);
      }
      n, err := writeNoResponse(data).0, writeNoResponse(data).1;
    }
  }

  /**
   * First in, first out: on a transport with a notify characteristic and
   * a registered handler, the payloads pushed and then read back one by
   * one under a live context come back in push order.
   */
  method PushThenDrain(c: Characteristics.Characteristic, payloads: seq<Bytes>) returns (received: seq<Bytes>)
    ensures received == payloads
  {
    var t := new Transport([WithNotifyCharacteristic(c)]);
    var _ := t.Open(None);
    for i := 0 to |payloads|
      invariant t.notifyBytes == payloads[..i]
      invariant t.notifyCh.Some?
    {
      assert payloads[..i + 1] == payloads[..i] + [payloads[i]];
      t.OnNotification(payloads[i]);
    }
    assert payloads[..|payloads|] == payloads;
    received := [];
    for i := 0 to |payloads|
      invariant t.notifyBytes == payloads[i..]
      invariant received == payloads[..i]
      invariant t.notifyCh.Some?
    {
      var b, e := t.Read(Ctx(1, Canceled), [], ([], None));
      assert payloads[..i + 1] == payloads[..i] + [payloads[i]];
      received := received + [b];
    }
  }
}
