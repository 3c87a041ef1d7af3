/**
 From a byte stream to reports: the decode loop of the read callback (app/tiny_server.cxx:50-105),
 run once for each batch of bytes that net/tiny_tcpconnection.cxx:70-123 has gathered.
 */
module Stream {
  import opened Bytes
  import opened Buffers
  import opened Codec

  /** How a decode loop ended: waiting for bytes, on damaged data (the connection goes to the recycle
      thread and is not read again), or on the allocation failure of `Fault`. */
  datatype Ending = Open | Broken | Crashed

  datatype Parsed = Parsed(rpts: seq<Rpt>, rest: seq<Byte>, ending: Ending)

  /** The batch parse of a byte string. */
  function Parse(data: seq<Byte>): Parsed
    decreases |data|
  {
    match Decode(data)
    case NeedMore => Parsed([], data, Open)
    case Bad => Parsed([], data, Broken)
    case Fault => Parsed([], data, Crashed)
    case Got(used, r) =>
      var p := Parse(data[used..]);
      p.(rpts := [r] + p.rpts)
  }

  lemma ParseUnfold(data: seq<Byte>)
    ensures Decode(data) == NeedMore ==> Parse(data) == Parsed([], data, Open)
    ensures Decode(data) == Bad ==> Parse(data) == Parsed([], data, Broken)
    ensures Decode(data) == Fault ==> Parse(data) == Parsed([], data, Crashed)
    ensures Decode(data).Got? ==>
              var d := Decode(data);
              && 0 < d.used <= |data|
              && Parse(data) == Parse(data[d.used..]).(rpts := [d.rpt] + Parse(data[d.used..]).rpts)
  {
  }

  /** One more batch of bytes for a connection that has parsed `p` so far; once the stream is broken
      nothing more is read. */
  function Feed(p: Parsed, batch: seq<Byte>): Parsed {
    if p.ending != Open then p
    else
      var q := Parse(p.rest + batch);
      q.(rpts := p.rpts + q.rpts)
  }

  function FeedAll(p: Parsed, batches: seq<seq<Byte>>): Parsed
    decreases |batches|
  {
    if batches == [] then p else FeedAll(Feed(p, batches[0]), batches[1..])
  }

  /** The batches that arrive after the stream has broken are never read. */
  function Unread(p: Parsed, batches: seq<seq<Byte>>): seq<Byte>
    decreases |batches|
  {
    if batches == [] then []
    else if p.ending != Open then Concat(batches)
    else Unread(Feed(p, batches[0]), batches[1..])
  }

  lemma {:induction false} ParseExtends(data: seq<Byte>, more: seq<Byte>)
    ensures var p := Parse(data);
            var q := if p.ending == Open then Parse(p.rest + more) else Parsed([], p.rest + more, p.ending);
            Parse(data + more) == q.(rpts := p.rpts + q.rpts)
    decreases |data|
  {
    hide Decode, Parse;
    ParseUnfold(data);
    ParseUnfold(data + more);
    match Decode(data)
    case NeedMore =>
    case Got(used, r) =>
      DecodeExtends(data, more);
      assert (data + more)[used..] == data[used..] + more;
      ParseExtends(data[used..], more);
    case _ =>
      DecodeExtends(data, more);
  }

  /** However the stream is cut into reads, also inside a header, the reports, the way it ends and the
      bytes left over are those of one batch parse. */
  lemma {:induction false} ChunkingIsIrrelevant(sofar: seq<Byte>, batches: seq<seq<Byte>>)
    ensures var p := FeedAll(Parse(sofar), batches);
            Parse(sofar + Concat(batches)) == p.(rest := p.rest + Unread(Parse(sofar), batches))
    decreases |batches|
  {
    hide Parse, Decode;
    var p := Parse(sofar);
    if batches == [] {
      assert sofar + [] == sofar;
      assert p.rest + [] == p.rest;
    } else if p.ending != Open {
      ParseExtends(sofar, Concat(batches));
      FeedStopped(p, batches);
    } else {
      ParseExtends(sofar, batches[0]);
      ChunkingIsIrrelevant(sofar + batches[0], batches[1..]);
      assert sofar + Concat(batches) == sofar + batches[0] + Concat(batches[1..]);
    }
  }

  lemma {:induction false} FeedStopped(p: Parsed, batches: seq<seq<Byte>>)
    requires p.ending != Open
    ensures FeedAll(p, batches) == p
    decreases |batches|
  {
    if batches != [] {
      FeedStopped(p, batches[1..]);
    }
  }

  /** Frames of well-formed reports followed by part of one more frame parse to exactly those reports
      and leave exactly that part. */
  lemma {:induction false} FramesParse(rs: seq<Rpt>, next: Rpt, n: nat)
    requires (forall r | r in rs :: WellFormed(r)) && WellFormed(next) && n < |Frame(next)|
    ensures Parse(Frames(rs) + Frame(next)[..n]) == Parsed(rs, Frame(next)[..n], Open)
    decreases |rs|
  {
    hide Decode, Parse, Frame, Frames;
    var part := Frame(next)[..n];
    FramesUnfold(rs);
    ParseUnfold(Frames(rs) + part);
    if rs == [] {
      assert Frames(rs) + part == part;
      ProperPrefixNeedsMore(next, n);
    } else {
      var after := Frames(rs[1..]) + part;
      assert Frames(rs) + part == Frame(rs[0]) + after;
      RoundTrip(rs[0], after);
      assert (Frame(rs[0]) + after)[|Frame(rs[0])|..] == after;
      FramesParse(rs[1..], next, n);
    }
  }

  lemma AllFramesParse(rs: seq<Rpt>)
    requires forall r | r in rs :: WellFormed(r)
    ensures Parse(Frames(rs)) == Parsed(rs, [], Open)
  {
    hide Parse, Frames;
    var any := Rpt(8, 0, []);
    FramesParse(rs, any, 0);
    assert Frames(rs) + Frame(any)[..0] == Frames(rs);
  }

  /** What is left over at each kind of ending. */
  ghost predicate EndsWith(rest: seq<Byte>, ending: Ending) {
    match ending
    case Open => AwaitsMore(rest)
    case Broken => Damaged(rest)
    case Crashed => Undersized(rest)
  }

  /** The parse of a byte string is the only way to cut it into frames of well-formed reports and a rest that is
      no further frame: part of one, damaged, or with a length field that is too small. */
  lemma ParseExact(data: seq<Byte>, p: Parsed)
    ensures Parse(data) == p
            <==> (forall r | r in p.rpts :: WellFormed(r)) && data == Frames(p.rpts) + p.rest && EndsWith(p.rest, p.ending)
  {
    ParseCuts(data);
    if (forall r | r in p.rpts :: WellFormed(r)) && data == Frames(p.rpts) + p.rest && EndsWith(p.rest, p.ending) {
      CutParses(p);
    }
  }

  lemma {:induction false} ParseCuts(data: seq<Byte>)
    ensures var p := Parse(data);
            (forall r | r in p.rpts :: WellFormed(r)) && data == Frames(p.rpts) + p.rest && EndsWith(p.rest, p.ending)
    decreases |data|
  {
    hide Decode, Parse, Frame, Frames, Damaged, Undersized, AwaitsMore;
    ParseUnfold(data);
    DecodeRejectsExact(data);
    FramesUnfold(Parse(data).rpts);
    match Decode(data)
    case Got(used, r) =>
      DecodedIsFrame(data);
      ParseCuts(data[used..]);
      var p := Parse(data[used..]);
      assert ([r] + p.rpts)[1..] == p.rpts;
      assert data == data[..used] + data[used..];
      Assoc(Frame(r), Frames(p.rpts), p.rest);
    case _ => assert data == [] + data;
  }

  lemma {:induction false} CutParses(p: Parsed)
    requires (forall r | r in p.rpts :: WellFormed(r)) && EndsWith(p.rest, p.ending)
    ensures Parse(Frames(p.rpts) + p.rest) == p
    decreases |p.rpts|
  {
    hide Decode, Parse, Frame, Frames, Damaged, Undersized, AwaitsMore;
    FramesUnfold(p.rpts);
    ParseUnfold(Frames(p.rpts) + p.rest);
    if p.rpts == [] {
      assert [] + p.rest == p.rest;
      DecodeRejectsExact(p.rest);
    } else {
      var q := p.(rpts := p.rpts[1..]);
      var after := Frames(q.rpts) + p.rest;
      Assoc(Frame(p.rpts[0]), Frames(q.rpts), p.rest);
      RoundTrip(p.rpts[0], after);
      assert (Frame(p.rpts[0]) + after)[|Frame(p.rpts[0])|..] == after;
      CutParses(q);
    }
  }

  /** A sender that frames well-formed reports is understood however the bytes are cut up. */
  lemma ReceiverSeesSender(rs: seq<Rpt>, next: Rpt, n: nat, batches: seq<seq<Byte>>)
    requires (forall r | r in rs :: WellFormed(r)) && WellFormed(next) && n < |Frame(next)|
    requires Concat(batches) == Frames(rs) + Frame(next)[..n]
    ensures FeedAll(Parse([]), batches) == Parsed(rs, Frame(next)[..n], Open)
  {
    ChunkingIsIrrelevant([], batches);
    FramesParse(rs, next, n);
    assert [] + Concat(batches) == Concat(batches);
    if Unread(Parse([]), batches) != [] {
      UnreadMeansStopped(Parse([]), batches);
    }
    var p := FeedAll(Parse([]), batches);
    assert p.rest + [] == p.rest;
  }

  lemma {:induction false} UnreadMeansStopped(p: Parsed, batches: seq<seq<Byte>>)
    requires Unread(p, batches) != []
    ensures FeedAll(p, batches).ending != Open
    decreases |batches|
  {
    if p.ending != Open {
      FeedStopped(p, batches);
    } else {
      UnreadMeansStopped(Feed(p, batches[0]), batches[1..]);
    }
  }

  lemma TakePast(a: seq<Byte>, b: seq<Byte>, n: nat)
    requires |a| <= n <= |a + b|
    ensures (a + b)[..n] == a + b[..n - |a|]
  {
  }

  lemma FramesTake(rs: seq<Rpt>, k: nat)
    requires k < |rs|
    ensures Frames(rs[..k + 1]) == Frame(rs[0]) + Frames(rs[1..][..k])
  {
    assert rs[..k + 1][1..] == rs[1..][..k];
  }

  lemma FramesUnfold(rs: seq<Rpt>)
    ensures rs == [] ==> Frames(rs) == []
    ensures rs != [] ==> Frames(rs) == Frame(rs[0]) + Frames(rs[1..])
  {
  }

  /** Every prefix of a sequence of frames splits into whole frames and a proper part of the next. */
  lemma {:induction false} PrefixSplits(rs: seq<Rpt>, n: nat) returns (k: nat, m: nat)
    requires n <= |Frames(rs)|
    ensures k <= |rs|
    ensures if k == |rs| then m == 0 && Frames(rs)[..n] == Frames(rs)
            else m < |Frame(rs[k])| && Frames(rs)[..n] == Frames(rs[..k]) + Frame(rs[k])[..m]
    decreases |rs|
  {
    hide Frame, Frames;
    FramesUnfold(rs);
    if rs == [] {
      k, m := 0, 0;
    } else if n < |Frame(rs[0])| {
      k, m := 0, n;
      FramesUnfold(rs[..0]);
      assert Frames(rs)[..n] == Frame(rs[0])[..n] == [] + Frame(rs[0])[..n];
    } else {
      k, m := PrefixSplits(rs[1..], n - |Frame(rs[0])|);
      TakePast(Frame(rs[0]), Frames(rs[1..]), n);
      FramesTake(rs, k);
      if k < |rs| - 1 {
        Assoc(Frame(rs[0]), Frames(rs[1..][..k]), Frame(rs[1..][k])[..m]);
      }
      k := k + 1;
    }
  }

  /** Whatever part of a framed sequence has arrived, the receiver has the first k reports and waits. */
  lemma PrefixParses(rs: seq<Rpt>, n: nat) returns (k: nat)
    requires (forall r | r in rs :: WellFormed(r)) && n <= |Frames(rs)|
    ensures k <= |rs|
    ensures var p := Parse(Frames(rs)[..n]);
            && p.rpts == rs[..k] && p.ending == Open && Frames(rs)[..n] == Frames(rs[..k]) + p.rest
            && (if k == |rs| then p.rest == [] else p.rest < Frame(rs[k]))
  {
    var m;
    k, m := PrefixSplits(rs, n);
    if k == |rs| {
      var any := Rpt(8, 0, []);
      FramesParse(rs, any, 0);
      assert rs[..k] == rs;
      assert Frames(rs) + Frame(any)[..0] == Frames(rs);
    } else {
      FramesParse(rs[..k], rs[k], m);
    }
  }

  // ---- The loop over the decoder as written ----

  /** The loop with `DecodeAsWritten`; consuming bytes leaves the memory after the contents alone. */
  function ParseAsWritten(data: seq<Byte>, beyond: seq<Byte>): Parsed
    requires |beyond| >= 8
    decreases |data|
  {
    match DecodeAsWritten(data, beyond)
    case NeedMore => Parsed([], data, Open)
    case Bad => Parsed([], data, Broken)
    case Fault => Parsed([], data, Crashed)
    case Got(used, r) =>
      var p := ParseAsWritten(data[used..], beyond);
      p.(rpts := [r] + p.rpts)
  }

  /** One run of the callback is right whatever the stale memory holds, exactly when the bytes it
      leaves over do not end inside a header. */
  lemma ParseAsWrittenExact(data: seq<Byte>)
    ensures (forall beyond: seq<Byte> | |beyond| >= 8 :: ParseAsWritten(data, beyond) == Parse(data))
            <==> HeaderArrived(Parse(data).rest)
  {
    if HeaderArrived(Parse(data).rest) {
      forall beyond: seq<Byte> | |beyond| >= 8
        ensures ParseAsWritten(data, beyond) == Parse(data)
      {
        ParseAsWrittenAgrees(data, beyond);
      }
    } else {
      var ones: seq<Byte> := seq(8, i => 1);
      ParseAsWrittenBreaks(data, ones);
    }
  }

  lemma {:induction false} ParseAsWrittenAgrees(data: seq<Byte>, beyond: seq<Byte>)
    requires |beyond| >= 8 && HeaderArrived(Parse(data).rest)
    ensures ParseAsWritten(data, beyond) == Parse(data)
    decreases |data|
  {
    DecodeAsWrittenAgrees(data, beyond);
    if Decode(data).Got? {
      ParseAsWrittenAgrees(data[Decode(data).used..], beyond);
    }
  }

  lemma {:induction false} ParseAsWrittenBreaks(data: seq<Byte>, ones: seq<Byte>)
    requires |ones| == 8 && (forall b | b in ones :: b == 1) && !HeaderArrived(Parse(data).rest)
    ensures ParseAsWritten(data, ones) == Parse(data).(ending := Broken) && Parse(data).ending == Open
    decreases |data|
  {
    if Decode(data).Got? {
      DecodeAsWrittenAgrees(data, ones);
      ParseAsWrittenBreaks(data[Decode(data).used..], ones);
    } else {
      assert ones[8 - |data|] in ones;
      assert (data + ones)[5..9][3] == 1;
    }
  }

  // ---- Every sequence of batches, over the decoder as written ----

  /** One more batch, with `beyond` what the allocation holds after the contents during this run of the loop. */
  function FeedAsWritten(p: Parsed, batch: seq<Byte>, beyond: seq<Byte>): Parsed
    requires |beyond| >= 8
  {
    if p.ending != Open then p
    else
      var q := ParseAsWritten(p.rest + batch, beyond);
      q.(rpts := p.rpts + q.rpts)
  }

  predicate Stale(stale: seq<seq<Byte>>, n: nat) { |stale| == n && forall b | b in stale :: |b| >= 8 }

  function FeedAllAsWritten(p: Parsed, batches: seq<seq<Byte>>, stale: seq<seq<Byte>>): Parsed
    requires Stale(stale, |batches|)
    decreases |batches|
  {
    if batches == [] then p
    else
      assert stale[0] in stale;
      FeedAllAsWritten(FeedAsWritten(p, batches[0], stale[0]), batches[1..], stale[1..])
  }

  /** No batch that is read ends inside a header. */
  predicate HeadersWhole(p: Parsed, batches: seq<seq<Byte>>)
    decreases |batches|
  {
    batches != [] && p.ending == Open ==>
      HeaderArrived(Feed(p, batches[0]).rest) && HeadersWhole(Feed(p, batches[0]), batches[1..])
  }

  /** A report that has been waited for stays waited for while nothing arrives. */
  predicate Settled(p: Parsed) { p.ending == Open ==> Parse(p.rest) == Parsed([], p.rest, Open) }

  lemma {:induction false} ParseSettles(data: seq<Byte>)
    ensures Settled(Parse(data))
    ensures Parse(data).rpts == [] ==> Parse(data).rest == data
    decreases |data|
  {
    hide Decode, Parse;
    ParseUnfold(data);
    if Decode(data).Got? {
      ParseSettles(data[Decode(data).used..]);
    }
  }

  /** Reports are only added, and bytes left over are only added to as long as no report is. */
  lemma FeedGrows(p: Parsed, batch: seq<Byte>)
    requires Settled(p)
    ensures var q := Feed(p, batch);
            && Settled(q) && p.rpts <= q.rpts
            && (q.rpts == p.rpts ==> p.rest <= q.rest && (q.rest == p.rest ==> q == p))
  {
    hide Parse;
    ParseSettles(p.rest + batch);
    if p.ending == Open && Feed(p, batch).rpts == p.rpts {
      assert p.rest + [] == p.rest;
      assert p.rpts + [] == p.rpts;
      assert Parse(p.rest + batch).rpts == [];
    }
  }

  lemma {:induction false} FeedAllGrows(p: Parsed, batches: seq<seq<Byte>>)
    requires Settled(p)
    ensures var q := FeedAll(p, batches);
            && p.rpts <= q.rpts
            && (q.rpts == p.rpts ==> p.rest <= q.rest && (q.rest == p.rest ==> q == p))
    decreases |batches|
  {
    hide Feed, Settled;
    if batches != [] {
      FeedGrows(p, batches[0]);
      FeedAllGrows(Feed(p, batches[0]), batches[1..]);
    }
  }

  lemma {:induction false} FeedAllStopped(p: Parsed, batches: seq<seq<Byte>>, stale: seq<seq<Byte>>)
    requires p.ending != Open && Stale(stale, |batches|)
    ensures FeedAllAsWritten(p, batches, stale) == p
    decreases |batches|
  {
    if batches != [] {
      assert stale[0] in stale;
      FeedAllStopped(p, batches[1..], stale[1..]);
    }
  }

  lemma {:induction false} FeedAllAgrees(p: Parsed, batches: seq<seq<Byte>>, stale: seq<seq<Byte>>)
    requires HeadersWhole(p, batches) && Stale(stale, |batches|)
    ensures FeedAllAsWritten(p, batches, stale) == FeedAll(p, batches)
    decreases |batches|
  {
    if p.ending != Open {
      FeedAllStopped(p, batches, stale);
      FeedStopped(p, batches);
    } else if batches != [] {
      assert stale[0] in stale;
      ParseAsWrittenAgrees(p.rest + batches[0], stale[0]);
      FeedAllAgrees(Feed(p, batches[0]), batches[1..], stale[1..]);
    }
  }

  /** Where a batch ends inside a header, memory full of ones ends the stream for good, and what the receiver
      has then is not what it ought to have. */
  lemma {:induction false} FeedAllBreaks(p: Parsed, batches: seq<seq<Byte>>, ones: seq<Byte>)
    requires Settled(p) && !HeadersWhole(p, batches)
    requires |ones| == 8 && forall b | b in ones :: b == 1
    ensures var stale := seq(|batches|, _ => ones);
            Stale(stale, |batches|) && FeedAllAsWritten(p, batches, stale) != FeedAll(p, batches)
    decreases |batches|
  {
    hide Parse;
    var stale: seq<seq<Byte>> := seq(|batches|, _ => ones);
    var q := Feed(p, batches[0]);
    FeedGrows(p, batches[0]);
    assert stale[1..] == seq(|batches| - 1, _ => ones);
    if HeaderArrived(q.rest) {
      ParseAsWrittenAgrees(p.rest + batches[0], ones);
      FeedAllBreaks(q, batches[1..], ones);
    } else {
      ParseAsWrittenBreaks(p.rest + batches[0], ones);
      var broken := q.(ending := Broken);
      assert FeedAsWritten(p, batches[0], ones) == broken;
      FeedAllStopped(broken, batches[1..], stale[1..]);
      FeedAllGrows(q, batches[1..]);
    }
  }

  /** Over any sequence of batches, the loop as written gives what it ought to whatever stale memory holds at each
      run, if and only if no batch that is read ends inside a header. */
  lemma FeedAllAsWrittenExact(batches: seq<seq<Byte>>)
    ensures (forall stale | Stale(stale, |batches|) ::
               FeedAllAsWritten(Parse([]), batches, stale) == FeedAll(Parse([]), batches))
            <==> HeadersWhole(Parse([]), batches)
  {
    hide Parse;
    ParseSettles([]);
    if HeadersWhole(Parse([]), batches) {
      forall stale | Stale(stale, |batches|)
        ensures FeedAllAsWritten(Parse([]), batches, stale) == FeedAll(Parse([]), batches)
      {
        FeedAllAgrees(Parse([]), batches, stale);
      }
    } else {
      var ones: seq<Byte> := seq(8, _ => 1);
      FeedAllBreaks(Parse([]), batches, ones);
      assert Stale(seq(|batches|, _ => ones), |batches|);
    }
  }

  // ---- The read callback ----

  /** What `p` parses, after what has been parsed before. */
  function Joined(rpts: seq<Rpt>, p: Parsed): Parsed { p.(rpts := rpts + p.rpts) }

  /** One report decoded: what has been parsed, and what is left to parse. */
  lemma ParseStep(left: seq<Byte>, rpts: seq<Rpt>)
    requires Decode(left).Got?
    ensures var d := Decode(left);
            && 0 < d.used <= |left|
            && Joined(rpts, Parse(left)) == Joined(rpts + [d.rpt], Parse(left[d.used..]))
  {
    hide Decode, Parse;
    ParseUnfold(left);
    var d := Decode(left);
    assert rpts + ([d.rpt] + Parse(left[d.used..]).rpts) == rpts + [d.rpt] + Parse(left[d.used..]).rpts;
  }

  /** Nothing parsed before, and nothing left to parse. */
  lemma JoinedEnds(left: seq<Byte>, rpts: seq<Rpt>)
    ensures Joined([], Parse(left)) == Parse(left)
    ensures Decode(left) == NeedMore ==> Joined(rpts, Parse(left)) == Parsed(rpts, left, Open)
    ensures Decode(left) == Bad ==> Joined(rpts, Parse(left)) == Parsed(rpts, left, Broken)
    ensures Decode(left) == Fault ==> Joined(rpts, Parse(left)) == Parsed(rpts, left, Crashed)
  {
    hide Decode, Parse;
    ParseUnfold(left);
    assert rpts + [] == rpts && [] + Parse(left).rpts == Parse(left).rpts;
  }

  /** `OnRead`: decodes and consumes until no whole report is left. */
  method OnRead(recv: Buffer) returns (rpts: seq<Rpt>, ending: Ending)
    requires recv.Valid()
    modifies recv
    ensures recv.Valid() && recv.Repr() <= old(recv.Repr())
    ensures Parsed(rpts, recv.View().data, ending) == Parse(old(recv.View().data))
  {
    hide Decode, Parse, Joined, Shadow.Valid;
    rpts, ending := [], Open;
    var left := recv.Data();
    ghost var whole := Parse(left);
    JoinedEnds(left, []);
    while true
      invariant recv.Valid() && recv.Repr() <= old(recv.Repr()) && recv.View().data == left
      invariant whole == Joined(rpts, Parse(left))
      decreases |left|
    {
      JoinedEnds(left, rpts);
      match Decode(left) {
        case Bad =>
          ending := Broken;
          return;
        case Fault =>
          ending := Crashed;
          return;
        case NeedMore =>
          return;
        case Got(used, r) =>
          ParseStep(left, rpts);
          ghost var rest := left[used..];
          recv.Consumed(used);
          rpts := rpts + [r];
          left := recv.Data();
          assert left == rest;
      }
    }
  }
}
