/** Payloads: sequences of (key, size, value) entries that are parsed by dispatching to handlers. */
module Payload {
  import opened ByteStream

  datatype Entry = Entry(key: nat, value: Bytes)

  predicate Encodable(e: Entry) {
    e.key < 0x1_0000_0000 && |e.value| < 0x1_0000_0000
  }

  function WriteEntry(e: Entry): (bs: Bytes)
    ensures |bs| == 8 + |e.value|
  {
    WriteUint(e.key, 4) + WriteUint(|e.value|, 4) + e.value
  }

  function WriteEntries(es: seq<Entry>): Bytes {
    if es == [] then [] else WriteEntry(es[0]) + WriteEntries(es[1..])
  }

  /** `sizeInByteStream` of a payload. */
  function SizeOf(es: seq<Entry>): nat {
    if es == [] then 0 else 8 + |es[0].value| + SizeOf(es[1..])
  }

  function ReadEntry(bs: Bytes): (r: Parsed<Entry>)
    ensures r.Parsed? ==> |r.rest| < |bs|
  {
    match ReadUint(bs, 4)
    case Failed => Failed
    case Parsed(key, afterKey) => (
      match ReadUint(afterKey, 4)
      case Failed => Failed
      case Parsed(size, afterHeader) =>
        if |afterHeader| < size then Failed
        else Parsed(Entry(key, afterHeader[..size]), afterHeader[size..])
    )
  }

  /** The entries at the start of a stream and the bytes after them, which are empty or malformed. */
  function Scan(bs: Bytes): (r: (seq<Entry>, Bytes))
    decreases |bs|
  {
    if bs == [] then ([], [])
    else
      match ReadEntry(bs)
      case Failed => ([], bs)
      case Parsed(e, rest) =>
        var (es, tail) := Scan(rest);
        ([e] + es, tail)
  }

  // ---- Handlers ----

  /** What becomes of an entry: there is no handler for its key, a handler takes it, or a handler
      throws. */
  datatype Handled<+S> = Ignored | Accepted(state: S) | Rejected

  type Handlers<!S> = (nat, Bytes, S) -> Handled<S>

  /** A parse runs to the end or throws; what the handlers have done by then stays done. */
  datatype Outcome<+S> = Done(state: S) | Threw(state: S)

  function HandleAll<S>(h: Handlers<S>, es: seq<Entry>, s: S): Outcome<S>
    decreases |es|
  {
    if es == [] then Done(s)
    else
      match h(es[0].key, es[0].value, s)
      case Ignored => HandleAll(h, es[1..], s)
      case Accepted(t) => HandleAll(h, es[1..], t)
      case Rejected => Threw(s)
  }

  function ParsePayload<S>(h: Handlers<S>, bs: Bytes, s: S): Outcome<S> {
    var (es, tail) := Scan(bs);
    var handled := HandleAll(h, es, s);
    if tail == [] then handled else Threw(handled.state)
  }

  lemma {:induction false} HandleAllConcat<S>(h: Handlers<S>, a: seq<Entry>, b: seq<Entry>, s: S)
    ensures var first := HandleAll(h, a, s);
            HandleAll(h, a + b, s) == if first.Done? then HandleAll(h, b, first.state) else first
    decreases |a|
  {
    if a == [] {
      assert a + b == b;
    } else {
      assert (a + b)[1..] == a[1..] + b;
      match h(a[0].key, a[0].value, s)
      case Ignored => HandleAllConcat(h, a[1..], b, s);
      case Accepted(t) => HandleAllConcat(h, a[1..], b, t);
      case Rejected =>
    }
  }

  /** `parseByteStream`: one entry at a time, each checked for its size before its handler runs. */
  method ParseByteStream<S>(h: Handlers<S>, bytes: Bytes, init: S) returns (r: Outcome<S>)
    ensures r == ParsePayload(h, bytes, init)
  {
    var bs, state := bytes, init;
    while bs != []
      invariant Scan(bytes).1 == Scan(bs).1
      invariant HandleAll(h, Scan(bytes).0, init) == HandleAll(h, Scan(bs).0, state)
      decreases |bs|
    {
      var header := ReadEntry(bs);
      if header.Failed? {
        return Threw(state);
      }
      var es := Scan(header.rest).0;
      assert ([header.value] + es)[1..] == es;
      bs := header.rest;
      var handled := h(header.value.key, header.value.value, state);
      if handled.Accepted? {
        state := handled.state;
      } else if handled.Rejected? {
        return Threw(state);
      }
    }
    r := Done(state);
  }

  // ---- The codec ----

  ghost predicate AllEncodable(es: seq<Entry>) {
    forall e :: e in es ==> Encodable(e)
  }

  lemma EntryRoundTrip(e: Entry, bs: Bytes, rest: Bytes)
    requires Encodable(e)
    ensures ReadEntry(bs) == Parsed(e, rest) <==> bs == WriteEntry(e) + rest
  {
    Spans();
    var size := |e.value|;
    var afterKey := WriteUint(size, 4) + (e.value + rest);
    assert WriteEntry(e) + rest == WriteUint(e.key, 4) + afterKey;
    UintRoundTrip(e.key, 4, bs, afterKey);
    UintRoundTrip(size, 4, afterKey, e.value + rest);
    assert (e.value + rest)[..size] == e.value && (e.value + rest)[size..] == rest;
    if ReadEntry(bs) == Parsed(e, rest) {
      var key := ReadUint(bs, 4);
      var header := ReadUint(key.rest, 4);
      assert header.rest == e.value + rest;
      UintRoundTrip(size, 4, key.rest, header.rest);
      UintRoundTrip(e.key, 4, bs, key.rest);
    }
  }

  lemma ReadIsEncodable(bs: Bytes)
    requires ReadEntry(bs).Parsed?
    ensures Encodable(ReadEntry(bs).value)
  {
    Spans();
    WrittenUintOf(bs[..4]);
    WrittenUintOf(bs[4..][..4]);
  }

  /** A stream scans cleanly into a list of entries exactly when it is the encoding of that list:
      parsing and encoding are inverse to each other between accepted streams and entry lists. */
  lemma {:induction false} ParseIffEncoded(bs: Bytes, es: seq<Entry>)
    ensures Scan(bs) == (es, []) <==> AllEncodable(es) && bs == WriteEntries(es)
    decreases |bs| + |es|
  {
    if bs == [] {
      if es != [] { assert |WriteEntries(es)| >= 8; }
    } else if es != [] {
      var e, tail := es[0], es[1..];
      assert es == [e] + tail;
      assert AllEncodable(es) <==> Encodable(e) && AllEncodable(tail);
      var r := ReadEntry(bs);
      if r.Parsed? {
        ReadIsEncodable(bs);
        EntryRoundTrip(r.value, bs, r.rest);
        ParseIffEncoded(r.rest, tail);
        assert ([r.value] + Scan(r.rest).0)[1..] == Scan(r.rest).0;
      }
      if Encodable(e) {
        EntryRoundTrip(e, bs, WriteEntries(tail));
      }
    }
  }

  lemma Assoc<T>(a: seq<T>, b: seq<T>, c: seq<T>)
    ensures (a + b) + c == a + (b + c)
  {
  }

  lemma ScanEntry(e: Entry, rest: Bytes)
    requires Encodable(e)
    ensures Scan(WriteEntry(e) + rest) == ([e] + Scan(rest).0, Scan(rest).1)
  {
    EntryRoundTrip(e, WriteEntry(e) + rest, rest);
  }

  /** A well-formed stream followed by more bytes is parsed as the two streams one after the other. */
  lemma {:induction false} ScanConcat(es: seq<Entry>, bs: Bytes)
    requires AllEncodable(es)
    ensures Scan(WriteEntries(es) + bs) == (es + Scan(bs).0, Scan(bs).1)
    decreases |es|
  {
    if es == [] {
      assert WriteEntries(es) + bs == bs && es + Scan(bs).0 == Scan(bs).0;
    } else {
      var e, tail := es[0], es[1..];
      ScanConcat(tail, bs);
      ScanEntry(e, WriteEntries(tail) + bs);
      Assoc(WriteEntry(e), WriteEntries(tail), bs);
      Assoc([e], tail, Scan(bs).0);
      assert [e] + tail == es;
    }
  }

  lemma ParsePayloadConcat<S>(h: Handlers<S>, es: seq<Entry>, bs: Bytes, s: S)
    requires AllEncodable(es)
    ensures var first := HandleAll(h, es, s);
            ParsePayload(h, WriteEntries(es) + bs, s) ==
            if first.Done? then ParsePayload(h, bs, first.state)
            else first
  {
    ScanConcat(es, bs);
    HandleAllConcat(h, es, Scan(bs).0, s);
  }

  lemma {:induction false} SizeIsLength(es: seq<Entry>)
    ensures |WriteEntries(es)| == SizeOf(es)
  {
    if es != [] { SizeIsLength(es[1..]); }
  }

  lemma ConsConcat<T>(a: seq<T>, b: seq<T>)
    requires a != []
    ensures (a + b)[0] == a[0] && (a + b)[1..] == a[1..] + b
  {
  }

  lemma {:induction false} SumIsConcatenation(es: seq<Entry>, more: seq<Entry>)
    ensures WriteEntries(es + more) == WriteEntries(es) + WriteEntries(more)
    decreases |es|
  {
    if es == [] {
      assert es + more == more;
    } else {
      ConsConcat(es, more);
      SumIsConcatenation(es[1..], more);
      Assoc(WriteEntry(es[0]), WriteEntries(es[1..]), WriteEntries(more));
    }
  }

  lemma SizeIsEncodedLength(es: seq<Entry>, more: seq<Entry>)
    ensures |WriteEntries(es)| == SizeOf(es)
    ensures WriteEntries(es + more) == WriteEntries(es) + WriteEntries(more)
  {
    SizeIsLength(es);
    SumIsConcatenation(es, more);
  }

  // ---- Unknown entries ----

  ghost predicate HandlesOnly<S(!new)>(h: Handlers<S>, keys: set<nat>) {
    forall k, v, s :: k !in keys ==> h(k, v, s) == Ignored
  }

  ghost function OnlyKeys(es: seq<Entry>, keys: set<nat>): seq<Entry> {
    if es == [] then []
    else (if es[0].key in keys then [es[0]] else []) + OnlyKeys(es[1..], keys)
  }

  /** Entries without a handler are as good as absent, wherever they stand. */
  lemma {:induction false} UnknownEntriesSkipped<S(!new)>(h: Handlers<S>, es: seq<Entry>, keys: set<nat>, s: S)
    requires HandlesOnly(h, keys)
    ensures HandleAll(h, es, s) == HandleAll(h, OnlyKeys(es, keys), s)
    decreases |es|
  {
    if es != [] {
      var only := OnlyKeys(es[1..], keys);
      assert es[0].key in keys ==> ([es[0]] + only)[1..] == only;
      assert [] + only == only;
      match h(es[0].key, es[0].value, s)
      case Ignored => UnknownEntriesSkipped(h, es[1..], keys, s);
      case Accepted(t) => UnknownEntriesSkipped(h, es[1..], keys, t);
      case Rejected =>
    }
  }
}
