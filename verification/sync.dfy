/** The share protocol of BBoardActivity.py: the chat tube's self-filter,
    the handler for received texts (`event_received_cb`), the join trigger
    of a new tube (`_new_tube_cb`) and `_send_event`. Messages are
    "<tag>:<payload>" texts; only the tags 's' (one shared slide) and 'j'
    (a peer joined) are handled. The JSON codec is a pair of functions the
    model does not look inside. */
module Sync {
  import opened Outcomes
  import opened Text
  import opened Slides

  /** The JSON encoder and decoder; `loads` is `None` where decoding
      raises `ValueError`. */
  datatype Codec = Codec(dumps: seq<Value> -> string, loads: string -> Option<seq<Value>>)

  /** Decoding undoes encoding. */
  ghost predicate Inverse(c: Codec)
  {
    forall fields: seq<Value> :: c.loads(c.dumps(fields)) == Some(fields)
  }

  /** `_load(data)`: decode the payload, then merge the record. */
  function LoadText(slides: seq<Slide>, data: string, codec: Codec): (r: Result<seq<Slide>>)
    ensures codec.loads(data).None? ==> r == Err(ValueError)
    ensures codec.loads(data).Some? ==> r == Ok(Load(slides, codec.loads(data).value))
  {
    match codec.loads(data)
    case None => Err(ValueError)
    case Some(fields) => Ok(Load(slides, fields))
  }

  /** What handling one received text does: the collection afterwards and
      the texts sent, in order. */
  datatype Reaction = Reaction(slides: seq<Slide>, sent: seq<string>)

  /** The share text for one slide: "s:" followed by the encoded fields. */
  function ShareText(s: Slide, codec: Codec): string
  {
    "s:" + codec.dumps(DumpFields(s))
  }

  /** The owner slides, in list order. */
  function Owners(slides: seq<Slide>): (owned: seq<Slide>)
    ensures forall k :: 0 <= k < |owned| ==> owned[k].owner
    ensures forall s :: s in owned <==> s in slides && s.owner
  {
    if |slides| == 0 then []
    else (if slides[0].owner then [slides[0]] else []) + Owners(slides[1..])
  }

  /** The 'j' reply with a working `_dump`: one share text per owner slide,
      in list order, nothing for remote slides. */
  function ShareMessages(slides: seq<Slide>, codec: Codec): (sent: seq<string>)
    ensures |sent| == |Owners(slides)|
    ensures forall k :: 0 <= k < |sent| ==> sent[k] == ShareText(Owners(slides)[k], codec)
  {
    if |slides| == 0 then []
    else (if slides[0].owner then [ShareText(slides[0], codec)] else []) + ShareMessages(slides[1..], codec)
  }

  /** The 'j' reply as written: the loop reaches `_dump` at the first owner
      slide, which raises before anything is sent. */
  function ShareMessagesAsWritten(slides: seq<Slide>, codec: Codec): (r: Result<seq<string>>)
    ensures r.Ok? <==> |Owners(slides)| == 0
    ensures r.Ok? ==> r.value == []
    ensures r.Err? ==> r.error == TypeError
  {
    if |slides| == 0 then Ok([])
    else if slides[0].owner then
      Err(DumpAsWritten(slides[0]).error)
    else ShareMessagesAsWritten(slides[1..], codec)
  }

  /** `event_received_cb` as written. An empty text fails on `text[0]`. An
      's' text is cut at EVERY ':' and must give exactly two pieces; the
      second is loaded. A 'j' text re-shares the owner slides. Any other
      first character is ignored. */
  function EventReceivedAsWritten(slides: seq<Slide>, text: string, codec: Codec): (r: Result<Reaction>)
    ensures |text| == 0 ==> r == Err(IndexError)
    ensures |text| > 0 && text[0] == 's' && Count(text, ':') != 1 ==> r == Err(ValueError)
    ensures |text| > 0 && text[0] == 's' && r.Ok? ==> Count(text, ':') == 1 && r.value.sent == []
    ensures |text| > 0 && text[0] == 'j' ==>
      r == (if |Owners(slides)| == 0 then Ok(Reaction(slides, [])) else Err(TypeError))
    ensures |text| > 0 && text[0] != 's' && text[0] != 'j' ==> r == Ok(Reaction(slides, []))
    ensures r.Ok? ==> |r.value.slides| >= |slides| && r.value.slides[..|slides|] == slides
  {
    if |text| == 0 then Err(IndexError)
    else if text[0] == 's' then
      var parts := Split(text, ':');
      if |parts| != 2 then Err(ValueError)
      else
        match LoadText(slides, parts[1], codec)
        case Err(e) => Err(e)
        case Ok(loaded) => Ok(Reaction(loaded, []))
    else if text[0] == 'j' then
      match ShareMessagesAsWritten(slides, codec)
      case Err(e) => Err(e)
      case Ok(sent) => Ok(Reaction(slides, sent))
    else Ok(Reaction(slides, []))
  }

  /** `event_received_cb` with the tag split at the first ':' only and a
      working `_dump`. */
  function EventReceived(slides: seq<Slide>, text: string, codec: Codec): (r: Result<Reaction>)
    ensures |text| == 0 ==> r == Err(IndexError)
    ensures |text| > 0 && text[0] == 's' && ':' !in text ==> r == Err(ValueError)
    ensures |text| > 0 && text[0] == 'j' ==> r == Ok(Reaction(slides, ShareMessages(slides, codec)))
    ensures |text| > 0 && text[0] != 's' && text[0] != 'j' ==> r == Ok(Reaction(slides, []))
    ensures r.Ok? ==> |r.value.slides| >= |slides| && r.value.slides[..|slides|] == slides
    ensures r.Ok? && r.value.slides != slides ==> |text| > 0 && text[0] == 's' && r.value.sent == []
  {
    if |text| == 0 then Err(IndexError)
    else if text[0] == 's' then
      var parts := SplitOnce(text, ':');
      if |parts| != 2 then Err(ValueError)
      else
        match LoadText(slides, parts[1], codec)
        case Err(e) => Err(e)
        case Ok(loaded) => Ok(Reaction(loaded, []))
    else if text[0] == 'j' then Ok(Reaction(slides, ShareMessages(slides, codec)))
    else Ok(Reaction(slides, []))
  }

  lemma CountAppend(a: string, b: string, c: char)
    ensures Count(a + b, c) == Count(a, c) + Count(b, c)
  {
    if |a| > 0 {
      CountAppend(a[1..], b, c);
      assert (a + b)[1..] == a[1..] + b;
    } else {
      assert a + b == b;
    }
  }

  /** As written, a share text whose payload itself holds a ':' is
      rejected: `split(':')` gives more than two pieces. */
  lemma ColonInPayloadRejected(slides: seq<Slide>, payload: string, codec: Codec)
    requires ':' in payload
    ensures EventReceivedAsWritten(slides, "s:" + payload, codec) == Err(ValueError)
  {
    CountAppend("s:", payload, ':');
    CountZero(payload, ':');
  }

  /** As written, a share text reaches `_load` when the encoding holds no
      ':' and the codec round-trips. */
  lemma ShareTextLoadedAsWritten(slides: seq<Slide>, s: Slide, codec: Codec)
    requires Inverse(codec)
    requires ':' !in codec.dumps(DumpFields(s))
    ensures EventReceivedAsWritten(slides, ShareText(s, codec), codec) ==
      Ok(Reaction(Load(slides, DumpFields(s)), []))
  {
    var payload := codec.dumps(DumpFields(s));
    var text := ShareText(s, codec);
    assert text == "s" + [':'] + payload;
    JoinSplit(["s", payload], ':');
    assert Join(["s", payload], ':') == text;
  }

  /** Cutting "<tag>:<payload>" at the first ':' returns the payload intact,
      whatever it contains. */
  lemma SplitOnceTag(tag: char, payload: string)
    requires tag != ':'
    ensures SplitOnce([tag, ':'] + payload, ':') == [[tag], payload]
  {
    var text := [tag, ':'] + payload;
    assert text[1..][0] == ':';
    assert IndexOf(text, ':') == 1;
    assert text[..1] == [tag];
    assert text[2..] == payload;
  }

  /** With the first-colon split every share text is loaded, even when its
      encoding contains ':' characters. */
  lemma ShareTextLoaded(slides: seq<Slide>, s: Slide, codec: Codec)
    requires Inverse(codec)
    ensures EventReceived(slides, ShareText(s, codec), codec) == Ok(Reaction(Load(slides, DumpFields(s)), []))
  {
    var payload := codec.dumps(DumpFields(s));
    assert ShareText(s, codec) == ['s', ':'] + payload;
    SplitOnceTag('s', payload);
  }

  /** Feed texts to the handler in arrival order, keeping the collection;
      the first raise stops the run. */
  function ReceiveAll(slides: seq<Slide>, texts: seq<string>, codec: Codec): Result<seq<Slide>>
    decreases |texts|
  {
    if |texts| == 0 then Ok(slides)
    else
      match EventReceived(slides, texts[0], codec)
      case Err(e) => Err(e)
      case Ok(reaction) => ReceiveAll(reaction.slides, texts[1..], codec)
  }

  /** The field lists of the owner slides, in order. */
  function OwnerRecords(slides: seq<Slide>): (records: seq<seq<Value>>)
    ensures |records| == |Owners(slides)|
    ensures forall k :: 0 <= k < |records| ==> records[k] == DumpFields(Owners(slides)[k])
  {
    if |slides| == 0 then []
    else (if slides[0].owner then [DumpFields(slides[0])] else []) + OwnerRecords(slides[1..])
  }

  /** Receiving a peer's whole 'j' reply is the same as loading the field
      lists of its owner slides one after another. */
  lemma {:induction false} ReplyIsLoadAll(joiner: seq<Slide>, host: seq<Slide>, codec: Codec)
    requires Inverse(codec)
    ensures ReceiveAll(joiner, ShareMessages(host, codec), codec) == Ok(LoadAll(joiner, OwnerRecords(host)))
    decreases |host|
  {
    if |host| > 0 {
      var rest := host[1..];
      if host[0].owner {
        var msgs := ShareMessages(host, codec);
        assert msgs == [ShareText(host[0], codec)] + ShareMessages(rest, codec);
        assert msgs[1..] == ShareMessages(rest, codec);
        ShareTextLoaded(joiner, host[0], codec);
        var next := Load(joiner, DumpFields(host[0]));
        ReplyIsLoadAll(next, rest, codec);
        var recs := OwnerRecords(host);
        assert recs == [DumpFields(host[0])] + OwnerRecords(rest);
        assert recs[1..] == OwnerRecords(rest);
      } else {
        assert ShareMessages(host, codec) == ShareMessages(rest, codec);
        assert OwnerRecords(host) == OwnerRecords(rest);
        ReplyIsLoadAll(joiner, rest, codec);
      }
    }
  }

  /** After a joiner has received an existing peer's 'j' reply it holds a
      slide for every uid the peer owns, still without duplicates, and its
      own slides are untouched. The exchange is one-way: the replying peer
      receives nothing from the joiner. */
  lemma JoinDeliversOwnedUids(joiner: seq<Slide>, host: seq<Slide>, codec: Codec)
    requires Inverse(codec)
    requires UniqueUids(joiner)
    ensures EventReceived(host, "j", codec) == Ok(Reaction(host, ShareMessages(host, codec)))
    ensures ReceiveAll(joiner, ShareMessages(host, codec), codec).Ok?
    ensures var after := ReceiveAll(joiner, ShareMessages(host, codec), codec).value;
      && UniqueUids(after)
      && |after| >= |joiner|
      && after[..|joiner|] == joiner
      && forall s :: s in host && s.owner ==> s.uid in Uids(after)
  {
    ReplyIsLoadAll(joiner, host, codec);
    var records := OwnerRecords(host);
    LoadAllExtends(joiner, records);
    forall s | s in host && s.owner
      ensures s.uid in Uids(LoadAll(joiner, records))
    {
      var k :| 0 <= k < |Owners(host)| && Owners(host)[k] == s;
      LoadAllCoversUids(joiner, records, k);
    }
  }

  /** The Telepathy tube wrapper: its peer's unique bus name, whether this
      peer initiated the share, and the last text seen (`stack`). */
  datatype ChatTube = ChatTube(uniqueName: string, isInitiator: bool, stack: string)

  /** What `send_stack_cb` does with an incoming text: the tube afterwards
      and the text handed to the callback, if any. */
  datatype Delivery = Delivery(tube: ChatTube, delivered: Option<string>)

  /** `ChatTube.send_stack_cb`: a text whose sender is this peer's own bus
      name is dropped; any other is stored and passed on unchanged. */
  function SendStackCb(t: ChatTube, text: string, sender: Option<string>): (d: Delivery)
    ensures d.delivered.None? <==> sender == Some(t.uniqueName)
    ensures d.delivered.None? ==> d.tube == t
    ensures d.delivered.Some? ==> d.delivered.value == text && d.tube == t.(stack := text)
  {
    if sender == Some(t.uniqueName) then Delivery(t, None)
    else Delivery(t.(stack := text), Some(text))
  }

  /** The Telepathy parameters of the shared activity (BBoardActivity.py:45). */
  const Service: string := "org.sugarlabs.BBoardActivity"

  datatype TubeType = DBusTube | StreamTube
  datatype TubeState = LocalPending | RemotePending | Open

  /** A tube announced by `NewTube` or listed by `ListTubes`. */
  datatype TubeOffer = TubeOffer(kind: TubeType, service: string, state: TubeState)

  /** The share state of one peer: its slides, whether it initiated the
      share, whether it is a joiner still waiting for a tube, and the tube
      once one is set up. */
  datatype Peer = Peer(slides: seq<Slide>, initiating: bool, waiting: bool, tube: Option<ChatTube>)

  /** `_send_event`: send through the tube when there is one (the tube's
      `SendText` also records the text), otherwise do nothing. */
  function SendEvent(p: Peer, entry: string): (out: (Peer, seq<string>))
    ensures p.tube.None? ==> out == (p, [])
    ensures p.tube.Some? ==> out.1 == [entry] && out.0 == p.(tube := Some(p.tube.value.(stack := entry)))
  {
    if p.tube.Some? then (p.(tube := Some(p.tube.value.(stack := entry))), [entry]) else (p, [])
  }

  /** A text sent with `_send_event` reaches the other peers unchanged:
      every peer whose chat tube has another bus name stores and handles
      it, while the copy that comes back to the sender is dropped, leaving
      the sender as the send left it. */
  lemma SentTextDelivered(p: Peer, q: Peer, entry: string, codec: Codec)
    requires p.tube.Some? && q.tube.Some? && q.tube.value.uniqueName != p.tube.value.uniqueName
    ensures var (sender, sent) := SendEvent(p, entry);
      var from := Some(p.tube.value.uniqueName);
      sent == [entry] && sender.tube.Some? && sender.tube.value.stack == entry &&
      Receive(sender, entry, from, codec) == Received(sender, [], None) &&
      SendStackCb(q.tube.value, entry, from).delivered == Some(entry) &&
      (Receive(q, entry, from, codec).raised.Some? <==> EventReceived(q.slides, entry, codec).Err?)
  {
  }

  /** What `_new_tube_cb` did: the peer afterwards, whether it accepted the
      tube, the texts it sent, and the exception that escaped, if any. */
  datatype Joined = Joined(peer: Peer, accepted: bool, sent: seq<string>, raised: Option<PyError>)

  /** Is the offered tube one this activity takes: a D-Bus tube for its
      service? */
  predicate Matches(offer: TubeOffer)
  {
    offer.kind == DBusTube && offer.service == Service
  }

  /** `_new_tube_cb` as written: a matching tube is accepted when it is
      locally pending, but building the `ChatTube` then evaluates the name
      `PATH`, which the module never defines, so `NameError` escapes before
      `chattube` is assigned and before "j" is sent. */
  function NewTubeAsWritten(p: Peer, offer: TubeOffer): (j: Joined)
    ensures !Matches(offer) ==> j == Joined(p, false, [], None)
    ensures Matches(offer) ==> j.raised == Some(NameError) && j.accepted == (offer.state == LocalPending)
    ensures j.peer == p && j.sent == []
  {
    if Matches(offer) then Joined(p, offer.state == LocalPending, [], Some(NameError))
    else Joined(p, false, [], None)
  }

  /** `_list_tubes_reply_cb` as written: the listed tubes go through
      `_new_tube_cb` in order until one raises. `accepted` says whether any
      tube was accepted. */
  function ListTubesAsWritten(p: Peer, offers: seq<TubeOffer>): (j: Joined)
    ensures j.peer == p && j.sent == []
    ensures j.raised.Some? ==> j.raised.value == NameError
    ensures j.accepted ==> j.raised.Some?
    decreases |offers|
  {
    if |offers| == 0 then Joined(p, false, [], None)
    else
      var first := NewTubeAsWritten(p, offers[0]);
      if first.raised.Some? then first
      else
        var rest := ListTubesAsWritten(first.peer, offers[1..]);
        Joined(rest.peer, first.accepted || rest.accepted, first.sent + rest.sent, rest.raised)
  }

  /** As written, sharing never starts: whatever tubes are listed, the peer
      keeps no chat tube and sends nothing, so every later `_send_event`
      (the joiner's "j" and every reply to one) is silently dropped; the
      listing fails with `NameError` exactly when it offered a usable tube. */
  lemma {:induction false} SharingNeverStarts(p: Peer, offers: seq<TubeOffer>, entry: string)
    requires p.tube.None?
    ensures var j := ListTubesAsWritten(p, offers);
      j.peer == p && j.sent == [] && SendEvent(j.peer, entry) == (p, [])
    ensures (exists k :: 0 <= k < |offers| && Matches(offers[k])) <==> ListTubesAsWritten(p, offers).raised == Some(NameError)
    decreases |offers|
  {
    if |offers| > 0 && !Matches(offers[0]) {
      SharingNeverStarts(p, offers[1..], entry);
      if exists k :: 0 <= k < |offers| && Matches(offers[k]) {
        var k :| 0 <= k < |offers| && Matches(offers[k]);
        assert offers[1..][k - 1] == offers[k];
      }
      if exists k :: 0 <= k < |offers[1..]| && Matches(offers[1..][k]) {
        var k :| 0 <= k < |offers[1..]| && Matches(offers[1..][k]);
        assert offers[k + 1] == offers[1..][k];
      }
    }
  }

  /** `_new_tube_cb` as intended, with the object path defined: only a
      D-Bus tube for this activity's service is taken; a locally pending
      one is accepted first; a chat tube is built on it (with the bus name
      `uniqueName` the connection reports), and a waiting joiner announces
      itself with "j". */
  function NewTube(p: Peer, offer: TubeOffer, uniqueName: string): (j: Joined)
    ensures j.raised.None?
    ensures !Matches(offer) ==> j == Joined(p, false, [], None)
    ensures Matches(offer) ==>
      && j.accepted == (offer.state == LocalPending)
      && j.peer.slides == p.slides && j.peer.waiting == p.waiting && j.peer.initiating == p.initiating
      && j.peer.tube.Some? && j.peer.tube.value.uniqueName == uniqueName
      && j.peer.tube.value.isInitiator == p.initiating
      && j.sent == (if p.waiting then ["j"] else [])
  {
    if Matches(offer) then
      var withTube := p.(tube := Some(ChatTube(uniqueName, p.initiating, "")));
      var (after, sent) := if p.waiting then SendEvent(withTube, "j") else (withTube, []);
      Joined(after, offer.state == LocalPending, sent, None)
    else Joined(p, false, [], None)
  }

  /** A peer after one text arrived: the texts it sent in reply and the
      exception that escaped the handler, if any. */
  datatype Received = Received(peer: Peer, sent: seq<string>, raised: Option<PyError>)

  /** The corrected `event_received_cb` on a peer whose chat tube `t` has
      just stored the text; the replies go out through `_send_event`, so
      the tube ends up holding the last text that passed through it. */
  function Handle(p: Peer, t: ChatTube, text: string, codec: Codec): (r: Received)
    ensures r.peer.tube.Some? && r.peer.tube.value.uniqueName == t.uniqueName
    ensures r.peer.tube.value.isInitiator == t.isInitiator
    ensures |r.peer.slides| >= |p.slides| && r.peer.slides[..|p.slides|] == p.slides
    ensures r.raised.Some? <==> EventReceived(p.slides, text, codec).Err?
    ensures r.raised.Some? ==>
      r.raised.value == EventReceived(p.slides, text, codec).error &&
      r.peer == p.(tube := Some(t)) && r.sent == []
    ensures r.peer.tube.value.stack == (if |r.sent| == 0 then t.stack else r.sent[|r.sent| - 1])
  {
    var handled := EventReceived(p.slides, text, codec);
    if handled.Err? then Received(p.(tube := Some(t)), [], Some(handled.error))
    else
      var sent := handled.value.sent;
      Received(p.(slides := handled.value.slides,
                  tube := Some(if |sent| == 0 then t else t.(stack := sent[|sent| - 1]))),
               sent, None)
  }

  /** One text arriving on a peer's tube from `sender`: the chat tube drops
      the peer's own texts and stores any other before the handler runs,
      so a handler that raises still leaves it stored. */
  function Receive(p: Peer, text: string, sender: Option<string>, codec: Codec): (r: Received)
    requires p.tube.Some?
    ensures sender == Some(p.tube.value.uniqueName) ==> r == Received(p, [], None)
    ensures r.peer.tube.Some? && r.peer.tube.value.uniqueName == p.tube.value.uniqueName
    ensures r.peer.tube.value.isInitiator == p.tube.value.isInitiator
    ensures |r.peer.slides| >= |p.slides| && r.peer.slides[..|p.slides|] == p.slides
    ensures r.raised.Some? <==> sender != Some(p.tube.value.uniqueName) && EventReceived(p.slides, text, codec).Err?
    ensures r.raised.Some? ==>
      r.raised.value == EventReceived(p.slides, text, codec).error &&
      r.peer == p.(tube := Some(p.tube.value.(stack := text))) && r.sent == []
    ensures sender != Some(p.tube.value.uniqueName) ==>
      r.peer.tube.value.stack == (if |r.sent| == 0 then text else r.sent[|r.sent| - 1])
  {
    var d := SendStackCb(p.tube.value, text, sender);
    if d.delivered.None? then Received(p, [], None)
    else Handle(p, d.tube, text, codec)
  }

  /** A joiner's own "j" comes back to it over the bus and is dropped, so a
      peer never answers its own announcement. */
  lemma OwnAnnouncementIgnored(p: Peer, offer: TubeOffer, uniqueName: string, codec: Codec)
    requires Matches(offer) && p.waiting
    ensures var q := NewTube(p, offer, uniqueName).peer;
      q.tube.Some? && Receive(q, "j", Some(uniqueName), codec) == Received(q, [], None)
  {
  }
}
