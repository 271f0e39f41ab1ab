/** The SOCKS5 side of one dynamic port-forward connection, fed whatever chunks the network delivers. */
module DynamicForward {
  import opened Wrappers
  import opened Socks5

  datatype Stage = InGreeting | InRequest | Piping

  /** What a byte stream from the client has led to so far. */
  datatype Verdict =
    | Waiting
    | Destroyed
    | Opened(host: Host, port: nat, initialData: Bytes)

  datatype Progress = Progress(verdict: Verdict, sent: seq<Bytes>)

  /** The verdict on everything received, read as one stream. */
  function Judged(stream: Bytes): (progress: Progress) {
    if !GreetingComplete(stream) then Progress(Waiting, [])
    else
      match Greeted(stream)
      case Accepted(request) => JudgedRequest(request)
      case _ => Progress(Destroyed, [[VERSION, NO_ACCEPTABLE]])
  }

  predicate GreetingComplete(stream: Bytes) {
    |stream| >= 2 && |stream| - 2 >= stream[1]
  }

  function JudgedRequest(request: Bytes): (progress: Progress) {
    var accepted := [VERSION, NO_AUTH];
    match Parsed(request)
    case NeedMoreData => Progress(Waiting, [accepted])
    case Unsupported(code, _) => Progress(Destroyed, [accepted, Response(code)])
    case Invalid(code, _) => Progress(Destroyed, [accepted, Response(code)])
    case Connect(host, port, consumed) =>
      ConsumesWithin(request);
      Progress(Opened(host, port, request[consumed..]), [accepted])
  }

  lemma ConsumesWithin(request: Bytes)
    ensures Parsed(request).Connect? ==> Parsed(request).consumedBytes <= |request|
  {
  }

  class DynamicConnection {
    var stage: Stage
    var buffer: Bytes
    var destroyed: bool
    var sent: seq<Bytes>
    var target: Option<(Host, nat, Bytes)>
    ghost var received: Bytes

    ghost predicate Valid()
      reads this
    {
      && State() == Judged(received)
      && (stage.InGreeting? && !destroyed ==> buffer == received && !GreetingComplete(received))
      && (stage.InRequest? && !destroyed ==>
            GreetingComplete(received) && Greeted(received) == Accepted(buffer) && sent == [[VERSION, NO_AUTH]])
      && (stage.Piping? <==> target.Some?)
    }

    function State(): (progress: Progress)
      reads this
    {
      if destroyed then Progress(Destroyed, sent)
      else if target.Some? then Progress(Opened(target.value.0, target.value.1, target.value.2), sent)
      else Progress(Waiting, sent)
    }

    predicate Listening()
      reads this
    {
      !destroyed && !stage.Piping?
    }

    constructor ()
      ensures Valid() && Listening() && received == []
    {
      stage, buffer, destroyed, sent, target, received := InGreeting, [], false, [], None, [];
    }

    /** One data event. */
    method OnData(chunk: Bytes)
      requires Valid() && Listening()
      modifies this
      ensures Valid() && received == old(received) + chunk
      ensures State() == Judged(received)
    {
      hide Parsed, Greeted;
      ghost var before := received;
      RequestGrows(received, chunk);
      buffer := buffer + chunk;
      received := received + chunk;
      if stage.InGreeting? {
        if |buffer| < 2 {
          return;
        }
        var methodCount: nat := buffer[1];
        if |buffer| < 2 + methodCount {
          return;
        }
        CompleteIsDecided(buffer);
        var greeting, reply := HandleSocks5Greeting(buffer);
        if reply.Some? {
          sent := sent + [reply.value];
        }
        if greeting.Rejected? {
          destroyed := true;
          return;
        }
        buffer := greeting.remaining;
        stage := InRequest;
      }
      HandleRequest();
    }

    /** The request part of a data event. */
    method HandleRequest()
      requires stage.InRequest? && !destroyed && target.None? && sent == [[VERSION, NO_AUTH]]
      requires GreetingComplete(received) && Greeted(received) == Accepted(buffer)
      modifies this
      ensures Valid() && received == old(received)
    {
      hide Parsed, Greeted;
      ConsumesWithin(buffer);
      var request := ParseSocks5ConnectRequest(buffer);
      match request {
        case NeedMoreData =>
        case Unsupported(code, _) =>
          sent := sent + [Response(code)];
          destroyed := true;
        case Invalid(code, _) =>
          sent := sent + [Response(code)];
          destroyed := true;
        case Connect(host, port, consumedBytes) =>
          stage := Piping;
          target := Some((host, port, buffer[consumedBytes..]));
      }
    }

    /** Data events until the connection stops listening or the chunks run out. */
    method Feed(chunks: seq<Bytes>) returns (taken: nat)
      requires Valid() && Listening() && received == []
      modifies this
      ensures taken <= |chunks| && received == Flat(chunks[..taken]) && State() == Judged(received)
      ensures taken < |chunks| ==> !State().verdict.Waiting?
    {
      taken := 0;
      while taken < |chunks| && Listening()
        invariant Valid() && taken <= |chunks| && received == Flat(chunks[..taken])
      {
        assert chunks[..taken + 1][..taken] == chunks[..taken];
        OnData(chunks[taken]);
        taken := taken + 1;
      }
    }
  }

  /** More bytes after an accepted greeting belong to the request. */
  lemma RequestGrows(stream: Bytes, more: Bytes)
    ensures GreetingComplete(stream) ==> GreetingComplete(stream + more)
    ensures GreetingComplete(stream) && !Greeted(stream).Accepted? ==> Greeted(stream + more) == Greeted(stream)
    ensures GreetingComplete(stream) && Greeted(stream).Accepted? ==>
              Greeted(stream + more) == Accepted(Greeted(stream).remaining + more)
  {
    if GreetingComplete(stream) {
      var n: nat := stream[1];
      assert (stream + more)[2..2 + n] == stream[2..2 + n];
      assert (stream + more)[2 + n..] == stream[2 + n..] + more;
    }
  }

  lemma CompleteIsDecided(stream: Bytes)
    requires GreetingComplete(stream)
    ensures !Greeted(stream).Incomplete?
  {
  }

  // ---------------------------------------------------------------------------------------------
  // Chunking

  function Flat(chunks: seq<Bytes>): (stream: Bytes) {
    if chunks == [] then [] else Flat(chunks[..|chunks| - 1]) + chunks[|chunks| - 1]
  }

  lemma {:induction false} FlatSplits(chunks: seq<Bytes>, k: nat)
    requires k <= |chunks|
    ensures Flat(chunks) == Flat(chunks[..k]) + Flat(chunks[k..])
    decreases |chunks|
  {
    if k == |chunks| {
      assert chunks[..k] == chunks && chunks[k..] == [];
    } else {
      var init := chunks[..|chunks| - 1];
      FlatSplits(init, k);
      assert init[..k] == chunks[..k] && chunks[k..][..|chunks| - 1 - k] == init[k..];
    }
  }

  /** The same decision and replies; what was received after the request is the only thing that grows. */
  predicate Continues(before: Progress, more: Bytes, after: Progress) {
    && before.sent == after.sent
    && match before.verdict
       case Opened(host, port, initialData) => after.verdict == Opened(host, port, initialData + more)
       case verdict => after.verdict == verdict
  }

  /** A decision is never revised. */
  lemma JudgedStable(stream: Bytes, more: Bytes)
    requires !Judged(stream).verdict.Waiting?
    ensures Continues(Judged(stream), more, Judged(stream + more))
  {
    hide Parsed, Greeted;
    RequestGrows(stream, more);
    if Greeted(stream).Accepted? {
      var request := Greeted(stream).remaining;
      ParsedStable(request, more);
      ConsumesWithin(request);
      if Parsed(request).Connect? {
        var n := Parsed(request).consumedBytes;
        assert (request + more)[n..] == request[n..] + more;
      }
    }
  }

  /** `taken` chunks were read: all of them, or enough for a decision. */
  predicate Stops(chunks: seq<Bytes>, taken: nat) {
    taken <= |chunks| && (taken == |chunks| || !Judged(Flat(chunks[..taken])).verdict.Waiting?)
  }

  /** What was decided after the chunks taken is what the whole stream decides. */
  lemma TakenDecides(chunks: seq<Bytes>, taken: nat)
    requires Stops(chunks, taken)
    ensures Continues(Judged(Flat(chunks[..taken])), Flat(chunks[taken..]), Judged(Flat(chunks)))
  {
    hide Judged;
    FlatSplits(chunks, taken);
    if taken < |chunks| {
      JudgedStable(Flat(chunks[..taken]), Flat(chunks[taken..]));
    } else {
      assert chunks[..taken] == chunks && chunks[taken..] == [];
      NothingMore(Judged(Flat(chunks)));
    }
  }

  lemma NothingMore(progress: Progress)
    ensures Continues(progress, [], progress)
  {
  }

  /**
   * However the same client bytes are cut into chunks, the connection is accepted or refused alike, with
   * the same replies, host and port; and the bytes handed to the channel followed by the chunks not yet
   * read are the same stream.
   */
  lemma ChunkingDoesNotMatter(a: seq<Bytes>, k: nat, b: seq<Bytes>, m: nat)
    requires Flat(a) == Flat(b) && Stops(a, k) && Stops(b, m)
    ensures var p, q := Judged(Flat(a[..k])), Judged(Flat(b[..m]));
            && p.sent == q.sent
            && (p.verdict.Waiting? <==> q.verdict.Waiting?) && (p.verdict.Destroyed? <==> q.verdict.Destroyed?)
            && (p.verdict.Opened? ==>
                  && q.verdict.Opened? && p.verdict.host == q.verdict.host && p.verdict.port == q.verdict.port
                  && p.verdict.initialData + Flat(a[k..]) == q.verdict.initialData + Flat(b[m..]))
  {
    hide Judged;
    TakenDecides(a, k);
    TakenDecides(b, m);
  }

  // ---------------------------------------------------------------------------------------------
  // The bytes of an opened connection

  /** A greeting offering these methods. */
  function GreetingBytes(methods: Bytes): (bytes: Bytes)
    requires |methods| < 256
  {
    [5, |methods|] + methods
  }

  /** A greeting that offers no-authentication, a request and anything after it open exactly that target. */
  lemma WellFormedOpens(methods: Bytes, to: Target, port: nat, reserved: byte, rest: Bytes)
    requires |methods| < 256 && 0 in methods && to.Valid() && 1 <= port < 65536
    ensures Judged(GreetingBytes(methods) + Encoded(to, port, reserved) + rest)
            == Progress(Opened(to.Host(), port, rest), [[5, 0]])
    ensures Names(to.Host(), to)
  {
    hide Parsed, Encoded;
    var greeting, request := GreetingBytes(methods), Encoded(to, port, reserved);
    var stream := greeting + request + rest;
    assert stream[2..2 + |methods|] == methods;
    assert stream[2 + |methods|..] == request + rest;
    EncodedConnects(to, port, reserved, rest);
    assert (request + rest)[|request|..] == rest;
  }

  /** Nothing else is opened: every byte received is greeting, request or initial data. */
  lemma OnlyWellFormedOpens(stream: Bytes) returns (methods: Bytes, to: Target, reserved: byte)
    requires Judged(stream).verdict.Opened?
    ensures var Opened(host, port, initialData) := Judged(stream).verdict;
            && |methods| < 256 && 0 in methods && 1 <= port < 65536
            && to.Valid() && to.Host() == host && Names(host, to)
            && stream == GreetingBytes(methods) + Encoded(to, port, reserved) + initialData
            && Judged(stream).sent == [[5, 0]]
  {
    hide Parsed, Encoded;
    var n: nat := stream[1];
    methods := stream[2..2 + n];
    var request := stream[2 + n..];
    ConsumesWithin(request);
    to, reserved := ConnectIsEncoded(request);
    var consumed := Parsed(request).consumedBytes;
    assert request == request[..consumed] + request[consumed..];
    assert stream == GreetingBytes(methods) + request;
  }

  /** Any unfinished part of a greeting, and of a request after an acceptable one, is waited for. */
  lemma UnfinishedIsWaitedFor(methods: Bytes, to: Target, port: nat, reserved: byte, k: nat)
    requires |methods| < 256 && to.Valid() && port < 65536
    ensures k < |GreetingBytes(methods)| ==> Judged(GreetingBytes(methods)[..k]) == Progress(Waiting, [])
    ensures 0 in methods && k < |Encoded(to, port, reserved)| ==>
              Judged(GreetingBytes(methods) + Encoded(to, port, reserved)[..k]) == Progress(Waiting, [[5, 0]])
  {
    hide Parsed, Encoded;
    var greeting := GreetingBytes(methods);
    assert k < |greeting| && k >= 2 ==> greeting[..k][1] == |methods|;
    if 0 in methods && k < |Encoded(to, port, reserved)| {
      var stream := greeting + Encoded(to, port, reserved)[..k];
      PrefixNeedsMore(to, port, reserved, k);
      assert stream[2..2 + |methods|] == methods;
      assert stream[2 + |methods|..] == Encoded(to, port, reserved)[..k];
    }
  }

  /** A greeting of another version, or one that does not offer no-authentication, is refused with method 255. */
  lemma OtherGreetingsAreRefused(version: byte, methods: Bytes, rest: Bytes)
    requires |methods| < 256 && (version != 5 || 0 !in methods)
    ensures Judged([version, |methods|] + methods + rest) == Progress(Destroyed, [[5, 255]])
  {
    var stream := [version, |methods|] + methods + rest;
    assert stream[2..2 + |methods|] == methods;
  }

  /** A refused request is answered with its code, after the accepted greeting. */
  lemma RefusedRequestsAreTold(methods: Bytes, request: Bytes)
    requires |methods| < 256 && 0 in methods && (Parsed(request).Unsupported? || Parsed(request).Invalid?)
    ensures Judged(GreetingBytes(methods) + request)
            == Progress(Destroyed, [[5, 0], [5, Parsed(request).code, 0, 1, 0, 0, 0, 0, 0, 0]])
  {
    hide Parsed;
    var stream := GreetingBytes(methods) + request;
    assert stream[2..2 + |methods|] == methods;
    assert stream[2 + |methods|..] == request;
  }

  /** An undecided connection never buffers more than the longest greeting and request. */
  lemma WaitingIsBounded(stream: Bytes)
    requires Judged(stream).verdict.Waiting?
    ensures |stream| < 257 + 262
  {
    if GreetingComplete(stream) {
      var n: nat := stream[1];
      if |stream[2 + n..]| >= 262 {
        LongEnoughIsDecided(stream[2 + n..]);
      }
    }
  }
}
