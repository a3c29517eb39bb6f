/** The states that nodes broadcast and the messages that carry them. */
module PeerWire {
  import opened Rounding
  import opened ByteStream
  import opened Payload
  import LinkTime

  const TIMELINE_KEY := 0x746d6c6e
  const SESSION_KEY := 0x73657373
  const ENDPOINT_KEY := 0x6d657034
  const HOST_TIME_KEY := 0x5f5f6874
  const GHOST_TIME_KEY := 0x5f5f6774
  const PREV_GHOST_TIME_KEY := 0x5f706774

  // ---- Entry types ----

  /** A timeline on the wire: the tempo is sent as whole microseconds per beat. */
  datatype WireTimeline = WireTimeline(microsPerBeat: int, beatOrigin: int, timeOrigin: int) {
    predicate Fits() {
      FitsInt64(microsPerBeat) && FitsInt64(beatOrigin) && FitsInt64(timeOrigin)
    }
  }

  function WriteTimeline(tl: WireTimeline): Bytes
    requires tl.Fits()
  {
    WriteInt64(tl.microsPerBeat) + WriteInt64(tl.beatOrigin) + WriteInt64(tl.timeOrigin)
  }

  function ReadTimeline(bs: Bytes): Parsed<WireTimeline> {
    match ReadInt64(bs)
    case Failed => Failed
    case Parsed(m, r1) => (
      match ReadInt64(r1)
      case Failed => Failed
      case Parsed(b, r2) => (
        match ReadInt64(r2)
        case Failed => Failed
        case Parsed(t, r3) => Parsed(WireTimeline(m, b, t), r3)
      )
    )
  }

  /** IPv4 address and port. */
  datatype Endpoint = Endpoint(addr: nat, port: nat) {
    predicate Fits() {
      addr < 0x1_0000_0000 && port < 0x1_0000
    }
  }

  function WriteEndpoint(ep: Endpoint): Bytes {
    WriteUint(ep.addr, 4) + WriteUint(ep.port, 2)
  }

  function ReadEndpoint(bs: Bytes): Parsed<Endpoint> {
    match ReadUint(bs, 4)
    case Failed => Failed
    case Parsed(addr, r1) => (
      match ReadUint(r1, 2)
      case Failed => Failed
      case Parsed(port, r2) => Parsed(Endpoint(addr, port), r2)
    )
  }

  /** The check around every typed handler: the entry must be consumed exactly. */
  function Exactly<T, S>(p: Parsed<T>, assign: T -> S): Handled<S> {
    if p.Parsed? && p.rest == [] then Accepted(assign(p.value)) else Rejected
  }

  lemma TimelineRoundTrip(tl: WireTimeline)
    requires tl.Fits()
    ensures ReadTimeline(WriteTimeline(tl)) == Parsed(tl, [])
    ensures |WriteTimeline(tl)| == 24
  {
    var m, b, t := WriteInt64(tl.microsPerBeat), WriteInt64(tl.beatOrigin), WriteInt64(tl.timeOrigin);
    Assoc(m, b, t);
    Int64RoundTrip(tl.microsPerBeat, WriteTimeline(tl), b + t);
    Int64RoundTrip(tl.beatOrigin, b + t, t);
    assert t == t + [];
    Int64RoundTrip(tl.timeOrigin, t, []);
  }

  lemma EndpointRoundTrip(ep: Endpoint)
    requires ep.Fits()
    ensures ReadEndpoint(WriteEndpoint(ep)) == Parsed(ep, [])
  {
    Spans();
    var port := WriteUint(ep.port, 2);
    UintRoundTrip(ep.addr, 4, WriteEndpoint(ep), port);
    assert port == port + [];
    UintRoundTrip(ep.port, 2, port, []);
  }

  // ---- NodeState and PeerState ----

  datatype NodeState = NodeState(id: WireId, session: WireId, timeline: WireTimeline)
  datatype PeerState = PeerState(node: NodeState, endpoint: Endpoint) {
    predicate Fits() {
      node.timeline.Fits() && endpoint.Fits()
    }
  }

  function NodePayload(s: NodeState): seq<Entry>
    requires s.timeline.Fits()
  {
    [Entry(TIMELINE_KEY, WriteTimeline(s.timeline)), Entry(SESSION_KEY, s.session)]
  }

  function PeerPayload(s: PeerState): seq<Entry>
    requires s.Fits()
  {
    NodePayload(s.node) + [Entry(ENDPOINT_KEY, WriteEndpoint(s.endpoint))]
  }

  function NodeHandlers(key: nat, value: Bytes, s: NodeState): Handled<NodeState> {
    if key == TIMELINE_KEY then Exactly(ReadTimeline(value), tl => s.(timeline := tl))
    else if key == SESSION_KEY then Exactly(ReadId(value), id => s.(session := id))
    else Ignored
  }

  function EndpointHandler(key: nat, value: Bytes, s: PeerState): Handled<PeerState> {
    if key == ENDPOINT_KEY then Exactly(ReadEndpoint(value), ep => s.(endpoint := ep)) else Ignored
  }

  const NO_TIMELINE := WireTimeline(0, 0, 0)
  const NO_ENDPOINT := Endpoint(0, 0)

  function NodeFromPayload(id: WireId, bs: Bytes): Outcome<NodeState> {
    ParsePayload(NodeHandlers, bs, NodeState(id, Zeros(8), NO_TIMELINE))
  }

  /** Two passes over the same bytes, each ignoring what the other one reads. */
  function PeerFromPayload(id: WireId, bs: Bytes): Outcome<PeerState> {
    match NodeFromPayload(id, bs)
    case Threw(n) => Threw(PeerState(n, NO_ENDPOINT))
    case Done(n) => ParsePayload(EndpointHandler, bs, PeerState(n, NO_ENDPOINT))
  }

  lemma WholeIdIsExact(id: WireId)
    ensures ReadId(id) == Parsed(id, [])
  {
    assert id == id + [];
    IdRoundTrip(id, []);
  }

  lemma NodeEntriesHandled(s: NodeState, start: NodeState)
    requires s.timeline.Fits()
    ensures HandleAll(NodeHandlers, NodePayload(s), start) == Done(NodeState(start.id, s.session, s.timeline))
  {
    TimelineRoundTrip(s.timeline);
    WholeIdIsExact(s.session);
    var es := NodePayload(s);
    var t := start.(timeline := s.timeline);
    assert NodeHandlers(es[0].key, es[0].value, start) == Accepted(t);
    assert es[1..] == [Entry(SESSION_KEY, s.session)];
    HandleOne(NodeHandlers, es[1], t, t.(session := s.session));
  }

  lemma HandleOne<S>(h: Handlers<S>, e: Entry, s: S, t: S)
    requires h(e.key, e.value, s) == Accepted(t)
    ensures HandleAll(h, [e], s) == Done(t)
  {
    assert [e][1..] == [];
  }

  const PEER_KEYS: set<nat> := {TIMELINE_KEY, SESSION_KEY, ENDPOINT_KEY}

  lemma IgnoreLast<S>(h: Handlers<S>, es: seq<Entry>, last: Entry, s: S, t: S)
    requires HandleAll(h, es, s) == Done(t) && h(last.key, last.value, t) == Ignored
    ensures HandleAll(h, es + [last], s) == Done(t)
  {
    HandleAllConcat(h, es, [last], s);
    assert [last][1..] == [];
  }

  lemma FirstPass(s: PeerState, es: seq<Entry>)
    requires s.Fits() && AllEncodable(es) && OnlyKeys(es, PEER_KEYS) == PeerPayload(s)
    ensures NodeFromPayload(s.node.id, WriteEntries(es)) == Done(s.node)
  {
    var start := NodeState(s.node.id, Zeros(8), NO_TIMELINE);
    var last := Entry(ENDPOINT_KEY, WriteEndpoint(s.endpoint));
    ParseIffEncoded(WriteEntries(es), es);
    UnknownEntriesSkipped(NodeHandlers, es, PEER_KEYS, start);
    NodeEntriesHandled(s.node, start);
    IgnoreLast(NodeHandlers, NodePayload(s.node), last, start, s.node);
  }

  lemma SecondPass(s: PeerState, es: seq<Entry>)
    requires s.Fits() && AllEncodable(es) && OnlyKeys(es, PEER_KEYS) == PeerPayload(s)
    ensures ParsePayload(EndpointHandler, WriteEntries(es), PeerState(s.node, NO_ENDPOINT)) == Done(s)
  {
    var last, half := Entry(ENDPOINT_KEY, WriteEndpoint(s.endpoint)), PeerState(s.node, NO_ENDPOINT);
    ParseIffEncoded(WriteEntries(es), es);
    UnknownEntriesSkipped(EndpointHandler, es, PEER_KEYS, half);
    EndpointRoundTrip(s.endpoint);
    assert PeerPayload(s)[1..][1..] == [last];
    HandleOne(EndpointHandler, last, half, s);
  }

  /** Receiving what was sent gives the state that was sent, also when other entries unknown to
      this version are mixed in at any place: only the known ones have to appear in order. */
  lemma PeerStateReceived(s: PeerState, es: seq<Entry>)
    requires s.Fits() && AllEncodable(es) && OnlyKeys(es, PEER_KEYS) == PeerPayload(s)
    ensures PeerFromPayload(s.node.id, WriteEntries(es)) == Done(s)
  {
    FirstPass(s, es);
    SecondPass(s, es);
  }

  lemma PeerStateRoundTrip(s: PeerState)
    requires s.Fits()
    ensures PeerFromPayload(s.node.id, WriteEntries(PeerPayload(s))) == Done(s)
  {
    var es := PeerPayload(s);
    TimelineRoundTrip(s.node.timeline);
    assert AllEncodable(es);
    AllKnown(es);
    PeerStateReceived(s, es);
  }

  lemma {:induction false} AllKnown(es: seq<Entry>)
    requires forall e :: e in es ==> e.key in PEER_KEYS
    ensures OnlyKeys(es, PEER_KEYS) == es
  {
    if es != [] {
      AllKnown(es[1..]);
      assert [es[0]] + es[1..] == es;
    }
  }

  /** A session entry is accepted exactly when it has at most eight bytes; a short one is not an
      error but is filled up with zeros. */
  lemma SessionEntryAccepted(value: Bytes, s: NodeState)
    ensures NodeHandlers(SESSION_KEY, value, s).Accepted? <==> |value| <= 8
    ensures |value| <= 8 ==>
              NodeHandlers(SESSION_KEY, value, s) == Accepted(s.(session := value + Zeros(8 - |value|)))
  {
    if |value| <= 8 {
      assert value[..|value|] == value;
    }
  }

  /** A timeline entry is accepted exactly when it has 24 bytes. */
  lemma TimelineEntryAccepted(value: Bytes, s: NodeState)
    ensures NodeHandlers(TIMELINE_KEY, value, s).Accepted? <==> |value| == 24
  {
  }

  // ---- Tempo on the wire ----

  function ToWire(tl: LinkTime.Timeline): WireTimeline {
    WireTimeline(LinkTime.MicrosPerBeat(tl.tempo), tl.beatOrigin, tl.timeOrigin)
  }

  function FromWire(w: WireTimeline): LinkTime.Timeline
    requires w.microsPerBeat > 0
  {
    LinkTime.Timeline(LinkTime.TempoOfMicros(w.microsPerBeat), w.beatOrigin, w.timeOrigin)
  }

  /** A timeline that was sent converts every beat and time as the original does, and sending it on
      changes nothing further; it equals the original exactly when the tempo is a whole number of
      microseconds per beat. */
  lemma WireTempo(tl: LinkTime.Timeline, time: int, beats: int)
    ensures var received := FromWire(ToWire(tl));
            received.ToBeats(time) == tl.ToBeats(time)
            && received.FromBeats(beats) == tl.FromBeats(beats)
            && ToWire(received) == ToWire(tl)
            && received.beatOrigin == tl.beatOrigin == ToWire(tl).beatOrigin
            && received.timeOrigin == tl.timeOrigin == ToWire(tl).timeOrigin
            && (received == tl <==> tl.tempo.bpm * LinkTime.MicrosPerBeat(tl.tempo) as real == 60000000.0)
  {
    var m := LinkTime.MicrosPerBeat(tl.tempo);
    if tl.tempo.bpm * m as real == 60000000.0 {
      QuotientUnique(60000000.0, m as real, tl.tempo.bpm);
    }
    var q := 60000000.0 / m as real;
    assert q * m as real == 60000000.0;
  }

  // ---- Messages ----

  const MAX_MESSAGE_SIZE := 512

  const DISCOVERY_PROTOCOL: Bytes := [0x5f, 0x61, 0x73, 0x64, 0x70, 0x5f, 0x76, 1]
  const LINK_PROTOCOL: Bytes := [0x5f, 0x6c, 0x69, 0x6e, 0x6b, 0x5f, 0x76, 1]

  const INVALID: Byte := 0
  const PING: Byte := 1
  const PONG: Byte := 2

  datatype MessageHeader = MessageHeader(messageType: Byte, ttl: Byte, groupId: nat, ident: WireId)

  const NO_HEADER := MessageHeader(INVALID, 0, 0, [0, 0, 0, 0, 0, 0, 0, 0])

  function WriteHeader(h: MessageHeader): (bs: Bytes)
    ensures |bs| == 12
  {
    [h.messageType, h.ttl] + WriteUint(h.groupId, 2) + h.ident
  }

  /** `encodeMessage` of the discovery protocol; None is the range_error. */
  datatype Encoded = Message(bytes: Bytes) | TooLong

  function EncodeMessage(from: WireId, ttl: Byte, messageType: Byte, payload: seq<Entry>): Encoded {
    if 8 + 12 + SizeOf(payload) < MAX_MESSAGE_SIZE then
      Message(DISCOVERY_PROTOCOL + WriteHeader(MessageHeader(messageType, ttl, 0, from)) + WriteEntries(payload))
    else TooLong
  }

  function ReadHeader(bs: Bytes): MessageHeader
    requires |bs| == 12
  {
    MessageHeader(bs[0], bs[1], UintOf(bs[2..4]), bs[4..])
  }

  /** The header of a discovery message and the payload bytes; an invalid header and the untouched
      stream if it is not one. */
  function ParseMessageHeader(bs: Bytes): (MessageHeader, Bytes) {
    if |bs| >= 20 && bs[..8] == DISCOVERY_PROTOCOL then (ReadHeader(bs[8..20]), bs[20..]) else (NO_HEADER, bs)
  }

  lemma HeaderRoundTrip(h: MessageHeader)
    requires h.groupId < 0x1_0000
    ensures ReadHeader(WriteHeader(h)) == h
  {
    var bs, group := WriteHeader(h), WriteUint(h.groupId, 2);
    Spans();
    UintOfWritten(h.groupId, 2);
    assert bs[2..4] == group && bs[4..] == h.ident;
  }

  lemma ThreeParts(a: Bytes, b: Bytes, c: Bytes)
    ensures var bs := a + b + c;
            bs[..|a|] == a && bs[|a|..|a| + |b|] == b && bs[|a| + |b|..] == c
  {
  }

  lemma MessageRoundTrip(from: WireId, ttl: Byte, messageType: Byte, payload: seq<Entry>)
    ensures var m := EncodeMessage(from, ttl, messageType, payload);
            (m.Message? <==> SizeOf(payload) < 492)
            && (m.Message? ==>
                  |m.bytes| < MAX_MESSAGE_SIZE
                  && ParseMessageHeader(m.bytes) == (MessageHeader(messageType, ttl, 0, from), WriteEntries(payload)))
  {
    var h := MessageHeader(messageType, ttl, 0, from);
    SizeIsEncodedLength(payload, []);
    HeaderRoundTrip(h);
    ThreeParts(DISCOVERY_PROTOCOL, WriteHeader(h), WriteEntries(payload));
  }

  function EncodeLink(messageType: Byte, payload: seq<Entry>): Encoded {
    if 8 + 1 + SizeOf(payload) < MAX_MESSAGE_SIZE then
      Message(LINK_PROTOCOL + [messageType] + WriteEntries(payload))
    else TooLong
  }

  function ParseLinkHeader(bs: Bytes): (Byte, Bytes) {
    if |bs| >= 9 && bs[..8] == LINK_PROTOCOL then (bs[8], bs[9..]) else (INVALID, bs)
  }

  lemma LinkRoundTrip(messageType: Byte, payload: seq<Entry>, more: Bytes)
    requires EncodeLink(messageType, payload).Message?
    ensures ParseLinkHeader(EncodeLink(messageType, payload).bytes + more) ==
            (messageType, WriteEntries(payload) + more)
  {
    var head, body := LINK_PROTOCOL + [messageType], WriteEntries(payload);
    var bs := head + (body + more);
    Assoc(head, body, more);
    assert |head| == 9 && bs[..8] == head[..8] == LINK_PROTOCOL && bs[8] == head[8];
    assert bs[9..] == body + more;
  }

  /** A ping or pong has fewer than 512 bytes, and an entry list that would make it longer is refused. */
  lemma LinkSize(messageType: Byte, payload: seq<Entry>)
    ensures var m := EncodeLink(messageType, payload);
            (m.Message? <==> 9 + |WriteEntries(payload)| < 512)
            && (m.Message? ==> |m.bytes| == 9 + |WriteEntries(payload)|)
  {
    SizeIsEncodedLength(payload, []);
  }

  // ---- Which messages are accepted ----

  lemma HeaderBytes(bs: Bytes)
    requires |bs| == 12
    ensures WriteHeader(ReadHeader(bs)) == bs && ReadHeader(bs).groupId < 0x1_0000
  {
    WrittenUintOf(bs[2..4]);
    Spans();
    assert bs == [bs[0], bs[1]] + bs[2..4] + bs[4..];
  }

  /** A discovery message is one that starts with the protocol's eight characters and has room for a
      header; it is then read as the header and the payload it was made of. All else is read as an
      invalid message with nothing consumed. */
  lemma DiscoveryHeaderExactly(bs: Bytes, h: MessageHeader, rest: Bytes)
    requires h.groupId < 0x1_0000
    ensures if [0x5f, 0x61, 0x73, 0x64, 0x70, 0x5f, 0x76, 1] <= bs && |bs| >= 20 then
              ParseMessageHeader(bs) == (h, rest) <==>
              bs == [0x5f, 0x61, 0x73, 0x64, 0x70, 0x5f, 0x76, 1] + WriteHeader(h) + rest
            else
              ParseMessageHeader(bs) == (MessageHeader(0, 0, 0, [0, 0, 0, 0, 0, 0, 0, 0]), bs)
  {
    if DISCOVERY_PROTOCOL <= bs && |bs| >= 20 {
      HeaderBytes(bs[8..20]);
      ThreeParts(DISCOVERY_PROTOCOL, WriteHeader(h), rest);
      HeaderRoundTrip(h);
      assert bs == bs[..8] + bs[8..20] + bs[20..];
    }
  }

  /** The same for pings and pongs, whose header is the message type alone. */
  lemma LinkHeaderExactly(bs: Bytes, messageType: Byte, rest: Bytes)
    ensures if [0x5f, 0x6c, 0x69, 0x6e, 0x6b, 0x5f, 0x76, 1] <= bs && |bs| >= 9 then
              ParseLinkHeader(bs) == (messageType, rest) <==>
              bs == [0x5f, 0x6c, 0x69, 0x6e, 0x6b, 0x5f, 0x76, 1] + [messageType] + rest
            else ParseLinkHeader(bs) == (0, bs)
  {
    if LINK_PROTOCOL <= bs && |bs| >= 9 {
      ThreeParts(LINK_PROTOCOL, [messageType], rest);
      assert bs == bs[..8] + [bs[8]] + bs[9..];
    }
  }

  /** Entries that are missing from a peer state leave zeros. */
  lemma NothingSent(id: WireId)
    ensures PeerFromPayload(id, []) ==
            Done(PeerState(NodeState(id, [0, 0, 0, 0, 0, 0, 0, 0], WireTimeline(0, 0, 0)), Endpoint(0, 0)))
  {
    assert Zeros(8) == [0, 0, 0, 0, 0, 0, 0, 0];
  }

  // ---- The bytes on the wire ----

  lemma Keys()
    ensures WriteUint(TIMELINE_KEY, 4) == [0x74, 0x6d, 0x6c, 0x6e]
    ensures WriteUint(SESSION_KEY, 4) == [0x73, 0x65, 0x73, 0x73]
    ensures WriteUint(ENDPOINT_KEY, 4) == [0x6d, 0x65, 0x70, 0x34]
    ensures WriteUint(HOST_TIME_KEY, 4) == [0x5f, 0x5f, 0x68, 0x74]
    ensures WriteUint(GHOST_TIME_KEY, 4) == [0x5f, 0x5f, 0x67, 0x74]
    ensures WriteUint(PREV_GHOST_TIME_KEY, 4) == [0x5f, 0x70, 0x67, 0x74]
  {
    FourBytes(0x74, 0x6d, 0x6c, 0x6e);
    FourBytes(0x73, 0x65, 0x73, 0x73);
    FourBytes(0x6d, 0x65, 0x70, 0x34);
    FourBytes(0x5f, 0x5f, 0x68, 0x74);
    FourBytes(0x5f, 0x5f, 0x67, 0x74);
    FourBytes(0x5f, 0x70, 0x67, 0x74);
  }

  /** An entry of fewer than 256 bytes. */
  function ShortEntry(key: Bytes, value: Bytes): Bytes
    requires |value| < 256
  {
    key + [0, 0, 0, |value|] + value
  }

  lemma EntryBytes(e: Entry, key: Bytes)
    requires |e.value| < 256 && WriteUint(e.key, 4) == key
    ensures WriteEntry(e) == ShortEntry(key, e.value)
  {
    FourBytes(0, 0, 0, |e.value|);
  }

  lemma TwoEntries(a: Entry, b: Entry)
    ensures WriteEntries([a, b]) == WriteEntry(a) + WriteEntry(b)
  {
    assert [a, b][1..] == [b] && [b][1..] == [];
    assert WriteEntries([b]) == WriteEntry(b) + [] == WriteEntry(b);
  }

  /** What a node broadcasts about itself, byte by byte: timeline, session and endpoint, each behind its
      key in characters and its size. */
  lemma PeerStateBytes(s: PeerState)
    requires s.Fits()
    ensures WriteEntries(PeerPayload(s)) ==
            ShortEntry([0x74, 0x6d, 0x6c, 0x6e],
              WriteInt64(s.node.timeline.microsPerBeat) + WriteInt64(s.node.timeline.beatOrigin)
              + WriteInt64(s.node.timeline.timeOrigin))
            + ShortEntry([0x73, 0x65, 0x73, 0x73], s.node.session)
            + ShortEntry([0x6d, 0x65, 0x70, 0x34], WriteUint(s.endpoint.addr, 4) + WriteUint(s.endpoint.port, 2))
  {
    var a, b := Entry(TIMELINE_KEY, WriteTimeline(s.node.timeline)), Entry(SESSION_KEY, s.node.session);
    var c := Entry(ENDPOINT_KEY, WriteEndpoint(s.endpoint));
    Keys();
    EntryBytes(a, [0x74, 0x6d, 0x6c, 0x6e]);
    EntryBytes(b, [0x73, 0x65, 0x73, 0x73]);
    EntryBytes(c, [0x6d, 0x65, 0x70, 0x34]);
    TwoEntries(a, b);
    SumIsConcatenation([a, b], [c]);
    assert [c][1..] == [] && WriteEntries([c]) == WriteEntry(c) + [] == WriteEntry(c);
  }

  /** A discovery message, byte by byte. */
  lemma MessageBytes(from: WireId, ttl: Byte, messageType: Byte, payload: seq<Entry>)
    requires SizeOf(payload) < 492
    ensures EncodeMessage(from, ttl, messageType, payload) ==
            Message([0x5f, 0x61, 0x73, 0x64, 0x70, 0x5f, 0x76, 1] + ([messageType, ttl] + [0, 0] + from)
                    + WriteEntries(payload))
  {
    assert WriteUint(0, 2) == WriteUint(0, 1) + [0] && WriteUint(0, 1) == WriteUint(0, 0) + [0];
    assert WriteUint(0, 2) == [0, 0];
  }

  // ---- Ping and pong ----

  function TimeEntry(key: nat, time: int): Entry
    requires FitsInt64(time)
  {
    Entry(key, WriteInt64(time))
  }

  function PongPayload(session: WireId, ghostTime: int): seq<Entry>
    requires FitsInt64(ghostTime)
  {
    [Entry(SESSION_KEY, session), TimeEntry(GHOST_TIME_KEY, ghostTime)]
  }

  datatype Reply = Sent(bytes: Bytes) | NotSent

  /** The ping responder: the payload of a valid ping is appended to the pong as it is. */
  function RespondToPing(bs: Bytes, session: WireId, ghostTime: int): Reply
    requires FitsInt64(ghostTime)
  {
    var (messageType, payload) := ParseLinkHeader(bs);
    if messageType == PING && |payload| <= 32 then
      match EncodeLink(PONG, PongPayload(session, ghostTime))
      case Message(pong) => Sent(pong + payload)
      case TooLong => NotSent
    else NotSent
  }

  /** What a measurement reads from a pong. */
  datatype PongFields = PongFields(session: WireId, ghostTime: int, prevGhostTime: int, prevHostTime: int)

  function PongHandlers(key: nat, value: Bytes, f: PongFields): Handled<PongFields> {
    if key == SESSION_KEY then Exactly(ReadId(value), id => f.(session := id))
    else if key == GHOST_TIME_KEY then Exactly(ReadInt64(value), t => f.(ghostTime := t))
    else if key == PREV_GHOST_TIME_KEY then Exactly(ReadInt64(value), t => f.(prevGhostTime := t))
    else if key == HOST_TIME_KEY then Exactly(ReadInt64(value), t => f.(prevHostTime := t))
    else Ignored
  }

  function ReadPong(payload: Bytes): Outcome<PongFields> {
    ParsePayload(PongHandlers, payload, PongFields(Zeros(8), 0, 0, 0))
  }

  lemma TimeEntryIsExact(time: int)
    requires FitsInt64(time)
    ensures ReadInt64(WriteInt64(time)) == Parsed(time, [])
  {
    assert WriteInt64(time) == WriteInt64(time) + [];
    Int64RoundTrip(time, WriteInt64(time), []);
  }

  lemma SizeOfTwo(a: Entry, b: Entry)
    ensures SizeOf([a, b]) == 16 + |a.value| + |b.value|
  {
    assert [a, b][1..] == [b] && [b][1..] == [];
    assert SizeOf([b]) == 8 + |b.value|;
  }

  lemma PongEntriesHandled(session: WireId, ghostTime: int, f: PongFields)
    requires FitsInt64(ghostTime)
    ensures AllEncodable(PongPayload(session, ghostTime)) && SizeOf(PongPayload(session, ghostTime)) == 32
    ensures HandleAll(PongHandlers, PongPayload(session, ghostTime), f) ==
            Done(f.(session := session, ghostTime := ghostTime))
  {
    var es := PongPayload(session, ghostTime);
    var t := f.(session := session);
    SizeOfTwo(es[0], es[1]);
    WholeIdIsExact(session);
    TimeEntryIsExact(ghostTime);
    assert PongHandlers(es[0].key, es[0].value, f) == Accepted(t);
    assert es[1..] == [es[1]] && es[1..][1..] == [];
    HandleOne(PongHandlers, es[1], t, t.(ghostTime := ghostTime));
  }

  /** Whatever bytes a ping carries, the measurement reads from the reply the responder's session
      and ghost time first and then the ping's own bytes; a reply to a ping fits the buffer. */
  lemma PongCarriesPing(ping: Bytes, session: WireId, ghostTime: int)
    requires FitsInt64(ghostTime)
    ensures var r := RespondToPing(ping, session, ghostTime);
            (r.Sent? <==> ParseLinkHeader(ping).0 == PING && |ParseLinkHeader(ping).1| <= 32)
            && (r.Sent? ==>
                  |r.bytes| <= 73
                  && ParseLinkHeader(r.bytes).0 == PONG
                  && ReadPong(ParseLinkHeader(r.bytes).1) ==
                     ParsePayload(PongHandlers, ParseLinkHeader(ping).1, PongFields(session, ghostTime, 0, 0)))
  {
    var blank := PongFields(Zeros(8), 0, 0, 0);
    var es, payload := PongPayload(session, ghostTime), ParseLinkHeader(ping).1;
    PongEntriesHandled(session, ghostTime, blank);
    SizeIsEncodedLength(es, []);
    LinkRoundTrip(PONG, es, payload);
    ParsePayloadConcat(PongHandlers, es, payload, blank);
  }

  function PingPayload(hostTime: int, prevGhostTime: int): seq<Entry>
    requires FitsInt64(hostTime) && FitsInt64(prevGhostTime)
  {
    [TimeEntry(HOST_TIME_KEY, hostTime), TimeEntry(PREV_GHOST_TIME_KEY, prevGhostTime)]
  }

  lemma PingEntriesHandled(hostTime: int, prevGhostTime: int, f: PongFields)
    requires FitsInt64(hostTime) && FitsInt64(prevGhostTime)
    ensures ParsePayload(PongHandlers, WriteEntries(PingPayload(hostTime, prevGhostTime)), f) ==
            Done(f.(prevHostTime := hostTime, prevGhostTime := prevGhostTime))
  {
    var es := PingPayload(hostTime, prevGhostTime);
    var t := f.(prevHostTime := hostTime);
    ParseIffEncoded(WriteEntries(es), es);
    TimeEntryIsExact(hostTime);
    TimeEntryIsExact(prevGhostTime);
    assert PongHandlers(es[0].key, es[0].value, f) == Accepted(t);
    assert es[1..] == [es[1]];
    HandleOne(PongHandlers, es[1], t, t.(prevGhostTime := prevGhostTime));
  }

  lemma PingEncoded(hostTime: int, prevGhostTime: int)
    requires FitsInt64(hostTime) && FitsInt64(prevGhostTime)
    ensures var es := PingPayload(hostTime, prevGhostTime);
            var ping := EncodeLink(PING, es);
            ping.Message? && ParseLinkHeader(ping.bytes) == (PING, WriteEntries(es)) && |WriteEntries(es)| == 32
  {
    var es := PingPayload(hostTime, prevGhostTime);
    SizeOfTwo(es[0], es[1]);
    SizeIsEncodedLength(es, []);
    LinkRoundTrip(PING, es, []);
    var ping := EncodeLink(PING, es);
    assert ping.bytes + [] == ping.bytes && WriteEntries(es) + [] == WriteEntries(es);
  }

  /** A reply, byte by byte: the session, the responder's ghost time, and the payload of the ping. */
  lemma PongBytes(ping: Bytes, session: WireId, ghostTime: int)
    requires FitsInt64(ghostTime) && RespondToPing(ping, session, ghostTime).Sent?
    ensures RespondToPing(ping, session, ghostTime).bytes ==
            [0x5f, 0x6c, 0x69, 0x6e, 0x6b, 0x5f, 0x76, 1] + [2]
            + (ShortEntry([0x73, 0x65, 0x73, 0x73], session)
               + ShortEntry([0x5f, 0x5f, 0x67, 0x74], WriteInt64(ghostTime)))
            + ParseLinkHeader(ping).1
  {
    var es := PongPayload(session, ghostTime);
    Keys();
    EntryBytes(es[0], [0x73, 0x65, 0x73, 0x73]);
    EntryBytes(es[1], [0x5f, 0x5f, 0x67, 0x74]);
    TwoEntries(es[0], es[1]);
  }

  /** A ping, byte by byte: the host time and the ghost time of the last reply. */
  lemma PingBytes(hostTime: int, prevGhostTime: int)
    requires FitsInt64(hostTime) && FitsInt64(prevGhostTime)
    ensures EncodeLink(PING, PingPayload(hostTime, prevGhostTime)) ==
            Message([0x5f, 0x6c, 0x69, 0x6e, 0x6b, 0x5f, 0x76, 1] + [1]
                    + (ShortEntry([0x5f, 0x5f, 0x68, 0x74], WriteInt64(hostTime))
                       + ShortEntry([0x5f, 0x70, 0x67, 0x74], WriteInt64(prevGhostTime))))
  {
    var es := PingPayload(hostTime, prevGhostTime);
    Keys();
    EntryBytes(es[0], [0x5f, 0x5f, 0x68, 0x74]);
    EntryBytes(es[1], [0x5f, 0x70, 0x67, 0x74]);
    TwoEntries(es[0], es[1]);
    SizeOfTwo(es[0], es[1]);
  }

  /** A measurement's ping comes back with all four of its fields. */
  lemma PingPong(hostTime: int, prevGhostTime: int, session: WireId, ghostTime: int)
    requires FitsInt64(hostTime) && FitsInt64(prevGhostTime) && FitsInt64(ghostTime)
    ensures var ping := EncodeLink(PING, PingPayload(hostTime, prevGhostTime));
            ping.Message? && RespondToPing(ping.bytes, session, ghostTime).Sent?
            && ReadPong(ParseLinkHeader(RespondToPing(ping.bytes, session, ghostTime).bytes).1) ==
               Done(PongFields(session, ghostTime, prevGhostTime, hostTime))
  {
    PingEncoded(hostTime, prevGhostTime);
    PongCarriesPing(EncodeLink(PING, PingPayload(hostTime, prevGhostTime)).bytes, session, ghostTime);
    PingEntriesHandled(hostTime, prevGhostTime, PongFields(session, ghostTime, 0, 0));
  }
}
