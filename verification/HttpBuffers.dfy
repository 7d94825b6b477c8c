/** The buffers the HTTP parser's callbacks fill: the request target and the body, each within its
    byte budget, and the count of header field bytes. */
module HttpBuffers {
  import opened HttpScan

  /** Bytes with room for a terminating zero; grown by doubling, never past `limit + 1`. */
  class Buffer {
    const limit: nat
    var data: seq<Octet>
    var capacity: nat

    ghost predicate Valid()
      reads this
    {
      255 <= limit && |data| <= limit && (if capacity == 0 then data == [] else |data| < capacity <= limit + 1)
    }

    constructor (limit: nat)
      requires 255 <= limit
      ensures Valid() && data == [] && this.limit == limit
    {
      this.limit, data, capacity := limit, [], 0;
    }

    /** The growth loop. */
    method Grown(needed: nat) returns (next: nat)
      requires Valid() && capacity < needed <= limit + 1
      ensures needed <= next <= limit + 1
    {
      next := if capacity == 0 then 256 else capacity;
      while next < needed
        invariant 0 < next <= limit + 1
        decreases limit + 1 - next
      {
        next := if next > (limit + 1) / 2 then limit + 1 else next * 2;
      }
    }

    method Append(bytes: seq<Octet>, memory: bool) returns (ok: bool)
      requires Valid()
      modifies this
      ensures Valid() && data == old(data) + if ok then bytes else []
      ensures memory ==> (ok <==> |old(data)| + |bytes| <= limit)
      ensures ok ==> |old(data)| + |bytes| <= limit
    {
      if |bytes| > limit - |data| { return false; }
      var needed := |data| + |bytes| + 1;
      if needed > capacity {
        var next := Grown(needed);
        if !memory { return false; }
        capacity := next;
      }
      data := data + bytes;
      return true;
    }
  }

  /** What the parser library reports while it executes a feed. */
  datatype Callback = Url(bytes: seq<Octet>) | Field(bytes: seq<Octet>) | Body(bytes: seq<Octet>) | MessageComplete

  function UrlOf(callbacks: seq<Callback>): seq<Octet> {
    if callbacks == [] then []
    else
      var last := callbacks[|callbacks| - 1];
      UrlOf(callbacks[..|callbacks| - 1]) + if last.Url? then last.bytes else []
  }

  function BodyOf(callbacks: seq<Callback>): seq<Octet> {
    if callbacks == [] then []
    else
      var last := callbacks[|callbacks| - 1];
      BodyOf(callbacks[..|callbacks| - 1]) + if last.Body? then last.bytes else []
  }

  function FieldsOf(callbacks: seq<Callback>): nat {
    if callbacks == [] then 0
    else
      var last := callbacks[|callbacks| - 1];
      FieldsOf(callbacks[..|callbacks| - 1]) + if last.Field? then |last.bytes| else 0
  }

  lemma OneMore(callbacks: seq<Callback>, c: Callback)
    ensures UrlOf(callbacks + [c]) == UrlOf(callbacks) + if c.Url? then c.bytes else []
    ensures BodyOf(callbacks + [c]) == BodyOf(callbacks) + if c.Body? then c.bytes else []
    ensures FieldsOf(callbacks + [c]) == FieldsOf(callbacks) + if c.Field? then |c.bytes| else 0
    ensures !c.Url? ==> UrlOf(callbacks + [c]) == UrlOf(callbacks)
    ensures !c.Body? ==> BodyOf(callbacks + [c]) == BodyOf(callbacks)
    ensures MessageComplete in callbacks + [c] <==> MessageComplete in callbacks || c == MessageComplete
  {
    assert (callbacks + [c])[..|callbacks|] == callbacks;
  }

  /** What the parser holds is what these callbacks brought. */
  ghost predicate Collected(
    url: seq<Octet>, body: seq<Octet>, fieldBytes: nat, complete: bool, accepted: seq<Callback>)
  {
    && url == UrlOf(accepted) && body == BodyOf(accepted) && fieldBytes == FieldsOf(accepted)
    && (complete <==> MessageComplete in accepted)
  }

  lemma CollectMore(
    url: seq<Octet>, body: seq<Octet>, fieldBytes: nat, complete: bool, accepted: seq<Callback>, c: Callback)
    requires Collected(url, body, fieldBytes, complete, accepted)
    ensures match c
            case Url(bytes) => Collected(url + bytes, body, fieldBytes, complete, accepted + [c])
            case Field(bytes) => Collected(url, body, fieldBytes + |bytes|, complete, accepted + [c])
            case Body(bytes) => Collected(url, body + bytes, fieldBytes, complete, accepted + [c])
            case MessageComplete => Collected(url, body, fieldBytes, true, accepted + [c])
  {
    OneMore(accepted, c);
  }

  /** After these callbacks, the budget has room for another one. */
  ghost predicate Fits(accepted: seq<Callback>, callback: Callback) {
    match callback
    case Url(bytes) => |UrlOf(accepted)| + |bytes| <= 65536
    case Field(bytes) => FieldsOf(accepted) + |bytes| <= 65536
    case Body(bytes) => |BodyOf(accepted)| + |bytes| <= 268435456
    case MessageComplete => true
  }

  /** Whether memory is granted to the callback at place `k`; beyond the script it is. */
  predicate Granted(grants: seq<bool>, k: nat) {
    k >= |grants| || grants[k]
  }

  lemma NextCallback(before: seq<Callback>, callbacks: seq<Callback>, index: nat)
    requires index < |callbacks|
    ensures (before + callbacks[..index]) + [callbacks[index]] == before + callbacks[..index + 1]
    ensures before <= before + callbacks[..index] <= before + callbacks
    ensures before <= before + callbacks[..index + 1] <= before + callbacks
  {
  }

  class RequestParser {
    const scan: HeaderScan
    const url: Buffer
    const body: Buffer
    var fieldBytes: nat
    var complete: bool

    /** Every callback accepted so far, over all feeds. */
    ghost var accepted: seq<Callback>

    ghost predicate Valid()
      reads this, scan, url, body
    {
      && ScanInv(scan.state, scan.seen)
      && url != body && url.Valid() && body.Valid() && url.limit == HEADER_LIMIT && body.limit == BODY_LIMIT
      && Collected(url.data, body.data, fieldBytes, complete, accepted) && fieldBytes <= HEADER_LIMIT
    }

    constructor ()
      ensures Valid() && accepted == [] && scan.seen == [] && fresh(scan) && fresh(url) && fresh(body)
    {
      scan := new HeaderScan();
      url := new Buffer(HEADER_LIMIT);
      body := new Buffer(BODY_LIMIT);
      fieldBytes, complete, accepted := 0, false, [];
    }

    /** One callback: it is accepted if its budget (and the allocator) has room for it. */
    method Receive(callback: Callback, memory: bool) returns (ok: bool)
      requires Valid()
      modifies this`fieldBytes, this`complete, this`accepted, url, body
      ensures Valid() && accepted == if ok then old(accepted) + [callback] else old(accepted)
      ensures ok ==> Fits(old(accepted), callback)
      ensures memory && Fits(old(accepted), callback) ==> ok
      ensures complete == (old(complete) || callback == MessageComplete)
    {
      CollectMore(url.data, body.data, fieldBytes, complete, accepted, callback);
      ok := true;
      match callback {
        case Url(bytes) => ok := url.Append(bytes, memory);
        case Field(bytes) =>
          ok := |bytes| <= HEADER_LIMIT - fieldBytes;
          if ok { fieldBytes := fieldBytes + |bytes|; }
        case Body(bytes) => ok := body.Append(bytes, memory);
        case MessageComplete => complete := true;
      }
      if ok { accepted := accepted + [callback]; }
    }

    /** The callbacks of one feed: the parser goes on to the first that is refused, and pauses at the
        end of the message. */
    method Execute(callbacks: seq<Callback>, grants: seq<bool>) returns (refused: bool)
      requires Valid() && !complete
      modifies this`fieldBytes, this`complete, this`accepted, url, body
      ensures Valid() && old(accepted) <= accepted <= old(accepted) + callbacks
      ensures complete ==> !refused && accepted[|accepted| - 1] == MessageComplete
      ensures !refused && !complete ==> accepted == old(accepted) + callbacks
      ensures refused ==> |accepted| < |old(accepted)| + |callbacks|
      ensures refused ==>
                var k := |accepted| - |old(accepted)|;
                Granted(grants, k) ==> !Fits(accepted, callbacks[k])
    {
      for index := 0 to |callbacks|
        invariant Valid() && !complete && accepted == old(accepted) + callbacks[..index]
      {
        NextCallback(old(accepted), callbacks, index);
        var taken := Receive(callbacks[index], Granted(grants, index));
        if !taken { return true; }
        if complete { return false; }
      }
      assert callbacks[..|callbacks|] == callbacks;
      return false;
    }

    /** A feed: 1 when the request is complete, 0 when more is wanted, -1 on failure.  Whatever way
        the input was cut, the headers' end is the first terminator in all bytes fed so far, more
        than 64 KiB without one are rejected before anything is parsed, and target and body are the
        concatenation of the pieces the parser has reported over all feeds. */
    method Feed(bytes: seq<Octet>, callbacks: seq<Callback>, fails: bool, grants: seq<bool>) returns (status: int)
      requires Valid()
      modifies this`fieldBytes, this`complete, this`accepted, scan, url, body
      ensures Valid() && (status == 1 <==> complete) && status in {-1, 0, 1}
      ensures old(complete) ==> accepted == old(accepted) && scan.seen == old(scan.seen)
      ensures !old(complete) ==> scan.seen == old(scan.seen) + bytes
      ensures !old(complete) && bytes != [] && Overflows(scan.seen) ==> status == -1 && accepted == old(accepted)
      ensures old(accepted) <= accepted <= old(accepted) + callbacks
      ensures status == 0 ==> !fails && accepted == old(accepted) + callbacks
      ensures status == -1 ==>
                || fails || (bytes != [] && Overflows(scan.seen))
                || (var k := |accepted| - |old(accepted)|;
                    k < |callbacks| && (Granted(grants, k) ==> !Fits(accepted, callbacks[k])))
    {
      if complete { return 1; }
      var rejected := scan.Feed(bytes);
      if rejected { return -1; }
      var refused := Execute(callbacks, grants);
      if complete { return 1; }
      return if refused || fails then -1 else 0;
    }
  }
}
