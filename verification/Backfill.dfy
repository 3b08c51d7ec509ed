/**
 Attribution of stored channel messages to the secrets they came from (channel_backfill.py,
 `ChannelBackfill`). Packets are decrypted once into an index by text; messages are looked up in it.
 */
module Backfill {
  import opened Bytes
  import opened GroupText
  import opened PacketLog
  import opened PacketRetention

  /** The payload type number of GRP_TXT. */
  const GRP_TXT := 5
  const SCAN_BEFORE := 86400
  const SCAN_AFTER := 3600
  const TS_TOLERANCE := 60

  /** A row of `channels.list()`. */
  datatype Channel = Channel(id: int, secret: Bytes, slot: Option<int>)

  /** What the backfill reads of a message. */
  datatype Target = Target(id: nat, ts: int, channelIdx: Option<int>, senderTimestamp: Option<nat>, text: string)

  /** A decrypted packet: `_Decrypted`. */
  datatype Entry = Entry(channel: int, ts: int, senderTimestamp: nat)

  type Index = map<string, seq<Entry>>

  /** The codec: cryptography, and `parse` from a raw packet to its payload. */
  datatype Codec = Codec(crypto: Crypto, parse: Bytes -> Bytes)

  // ---------------------------------------------------------------- secrets by hash byte

  function Append<K(==), V>(m: map<K, seq<V>>, k: K, v: V): map<K, seq<V>> {
    m[k := (if k in m then m[k] else []) + [v]]
  }

  function SecretsOf(c: Crypto, channels: seq<Channel>): Secrets {
    if channels == [] then map[]
    else
      var last := channels[|channels| - 1];
      Append(SecretsOf(c, channels[..|channels| - 1]), c.hash(last.secret), Keyed(last.id, last.secret))
  }

  // ---------------------------------------------------------------- decrypting into the index

  /** The part after the first ": ", if there is one. */
  function AfterSeparator(text: string): Option<string> {
    if |text| < 2 then None
    else if text[0] == ':' && text[1] == ' ' then Some(text[2..])
    else AfterSeparator(text[1..])
  }

  /** The texts a packet's message may have been stored under. */
  predicate StoredAs(text: string, key: string) {
    text == key || AfterSeparator(text) == Some(key)
  }

  /** No two neighbouring characters of the text are a colon and a blank. */
  predicate Unseparated(text: string) {
    forall i :: 0 <= i < |text| - 1 ==> !(text[i] == ':' && text[i + 1] == ' ')
  }

  lemma UnseparatedTail(text: string)
    requires text != []
    ensures Unseparated(text) <==> Unseparated(text[1..]) && !(|text| > 1 && text[0] == ':' && text[1] == ' ')
  {
    var rest := text[1..];
    assert forall i :: 0 <= i < |rest| ==> rest[i] == text[i + 1];
    if Unseparated(rest) && !(|text| > 1 && text[0] == ':' && text[1] == ' ') {
      forall i | 0 <= i < |text| - 1
        ensures !(text[i] == ':' && text[i + 1] == ' ')
      {
        assert i > 0 ==> text[i] == rest[i - 1] && text[i + 1] == rest[i];
      }
    }
    if Unseparated(text) {
      forall i | 0 <= i < |rest| - 1
        ensures !(rest[i] == ':' && rest[i + 1] == ' ')
      {
        assert rest[i] == text[i + 1] && rest[i + 1] == text[i + 1 + 1];
      }
    }
  }

  /** `partition(": ")` cuts at the first separator, if there is one. */
  lemma {:induction false} SeparatorMeaning(sender: string, body: string)
    ensures Unseparated(sender + ":") ==> AfterSeparator(sender + ": " + body) == Some(body)
    ensures Unseparated(sender) ==> AfterSeparator(sender) == None
    decreases |sender|
  {
    if sender == [] {
      assert [] + ": " + body == ": " + body;
      assert (": " + body)[2..] == body;
    } else {
      var rest, head, text := sender[1..], sender + ":", sender + ": " + body;
      assert text[1..] == rest + ": " + body && head[1..] == rest + ":";
      assert text[0] == head[0] == sender[0] && text[1] == head[1];
      assert |sender| > 1 ==> sender[1] == rest[0];
      UnseparatedTail(head);
      UnseparatedTail(sender);
      SeparatorMeaning(rest, body);
    }
  }

  function Decrypted(codec: Codec, secrets: Secrets, p: Packet): Option<Found> {
    if p.payload.None? then None else Decrypt(codec.crypto, codec.parse(p.payload.value), secrets)
  }

  function EntryOf(p: Packet, f: Found): Entry {
    Entry(f.channel, p.ts, f.timestamp)
  }

  /** The index after one more packet. */
  function Indexed(index: Index, p: Packet, found: Option<Found>): Index {
    match found
    case None => index
    case Some(f) =>
      var one := Append(index, f.text, EntryOf(p, f));
      match AfterSeparator(f.text)
      case None => one
      case Some(body) => Append(one, body, EntryOf(p, f))
  }

  function IndexOf(codec: Codec, secrets: Secrets, packets: seq<Packet>): Index {
    if packets == [] then map[]
    else
      var last := packets[|packets| - 1];
      Indexed(IndexOf(codec, secrets, packets[..|packets| - 1]), last, Decrypted(codec, secrets, last))
  }

  method DecryptPackets(codec: Codec, channels: seq<Channel>, packets: seq<Packet>) returns (index: Index)
    requires forall p :: p in packets ==> p.payload.Some?
    ensures index == IndexOf(codec, SecretsOf(codec.crypto, channels), packets)
  {
    var secrets: Secrets := map[];
    for i := 0 to |channels|
      invariant secrets == SecretsOf(codec.crypto, channels[..i])
    {
      assert channels[..i + 1][..i] == channels[..i];
      secrets := Append(secrets, codec.crypto.hash(channels[i].secret), Keyed(channels[i].id, channels[i].secret));
    }
    assert channels[..|channels|] == channels;
    index := map[];
    for i := 0 to |packets|
      invariant index == IndexOf(codec, secrets, packets[..i])
    {
      assert packets[..i + 1][..i] == packets[..i];
      var p := packets[i];
      var found := DecryptGroupText(codec.crypto, codec.parse(p.payload.value), secrets);
      if found.None? {
        continue;
      }
      var entry := Entry(found.value.channel, p.ts, found.value.timestamp);
      index := Append(index, found.value.text, entry);
      var body := AfterSeparator(found.value.text);
      if body.Some? {
        index := Append(index, body.value, entry);
      }
    }
    assert packets[..|packets|] == packets;
  }

  // ---------------------------------------------------------------- the index and the naive scan

  function Lookup(index: Index, key: string): seq<Entry> {
    if key in index then index[key] else []
  }

  /** Packet `p` decrypts to a message that may be stored under `key`, and yields this entry. */
  predicate Yields(codec: Codec, secrets: Secrets, p: Packet, key: string, e: Entry) {
    var found := Decrypted(codec, secrets, p);
    found.Some? && StoredAs(found.value.text, key) && e == EntryOf(p, found.value)
  }

  lemma IndexedLookup(index: Index, p: Packet, found: Option<Found>, key: string, e: Entry)
    ensures e in Lookup(Indexed(index, p, found), key) <==>
              || e in Lookup(index, key)
              || (found.Some? && StoredAs(found.value.text, key) && e == EntryOf(p, found.value))
  {
    hide AfterSeparator;
    if found.Some? {
      AppendLookup(index, found.value.text, EntryOf(p, found.value), key, e);
      var one := Append(index, found.value.text, EntryOf(p, found.value));
      if AfterSeparator(found.value.text).Some? {
        AppendLookup(one, AfterSeparator(found.value.text).value, EntryOf(p, found.value), key, e);
      }
    }
  }

  lemma AppendLookup(index: Index, text: string, entry: Entry, key: string, e: Entry)
    ensures e in Lookup(Append(index, text, entry), key) <==> e in Lookup(index, key) || (text == key && e == entry)
  {
  }

  /** Looking a text up in the index finds exactly what a scan over all the packets would. */
  lemma {:induction false} IndexIsTheNaiveScan(codec: Codec, secrets: Secrets, packets: seq<Packet>, key: string,
      e: Entry)
    ensures e in Lookup(IndexOf(codec, secrets, packets), key) <==>
              exists p :: p in packets && Yields(codec, secrets, p, key, e)
  {
    hide Decrypted, StoredAs, Indexed;
    if packets != [] {
      var before, last := packets[..|packets| - 1], packets[|packets| - 1];
      assert packets == before + [last];
      IndexIsTheNaiveScan(codec, secrets, before, key, e);
      IndexedLookup(IndexOf(codec, secrets, before), last, Decrypted(codec, secrets, last), key, e);
      assert Yields(codec, secrets, last, key, e) <==>
        Decrypted(codec, secrets, last).Some? && StoredAs(Decrypted(codec, secrets, last).value.text, key)
        && e == EntryOf(last, Decrypted(codec, secrets, last).value);
      hide Yields, Lookup;
      if p :| p in packets && Yields(codec, secrets, p, key, e) {
        assert p in before || p == last;
      }
    }
  }

  /** A packet's texts, spelt out: what it says after the sender's name, and the whole. */
  lemma IndexedUnderBoth(codec: Codec, secrets: Secrets, packets: seq<Packet>, p: Packet, f: Found, sender: string,
      body: string)
    requires p in packets && Decrypted(codec, secrets, p) == Some(f)
    requires f.text == sender + ": " + body && Unseparated(sender + ":")
    ensures Entry(f.channel, p.ts, f.timestamp) in Lookup(IndexOf(codec, secrets, packets), f.text)
    ensures Entry(f.channel, p.ts, f.timestamp) in Lookup(IndexOf(codec, secrets, packets), body)
  {
    hide IndexOf, Lookup, Decrypted, AfterSeparator, Unseparated;
    SeparatorMeaning(sender, body);
    var e := Entry(f.channel, p.ts, f.timestamp);
    IndexIsTheNaiveScan(codec, secrets, packets, f.text, e);
    IndexIsTheNaiveScan(codec, secrets, packets, body, e);
    assert Yields(codec, secrets, p, f.text, e) && Yields(codec, secrets, p, body, e);
  }

  /** A text without separator has no other key. */
  lemma IndexedOnlyWhole(codec: Codec, secrets: Secrets, p: Packet, f: Found, key: string, e: Entry)
    requires Decrypted(codec, secrets, p) == Some(f) && Unseparated(f.text)
    ensures Yields(codec, secrets, p, key, e) <==> key == f.text && e == Entry(f.channel, p.ts, f.timestamp)
  {
    SeparatorMeaning(f.text, []);
  }

  // ---------------------------------------------------------------- the decision

  function Abs(x: int): nat {
    if x < 0 then -x else x
  }

  /** A missing or zero sender timestamp leaves only the receive time to go by. */
  predicate SameSend(m: Target, e: Entry) {
    if m.senderTimestamp.Some? && m.senderTimestamp.value != 0 then m.senderTimestamp.value == e.senderTimestamp
    else Abs(m.ts - e.ts) <= TS_TOLERANCE
  }

  function Key(m: Target): string {
    Strip(m.text, '\0')
  }

  function Matched(index: Index, m: Target): set<int> {
    set e | e in Lookup(index, Key(m)) && SameSend(m, e) :: e.channel
  }

  /** What the matched channels should be, read off the packets one by one. */
  function NaiveMatched(codec: Codec, secrets: Secrets, packets: seq<Packet>, m: Target): set<int> {
    set p | p in packets && Witnesses(codec, secrets, p, m) :: Decrypted(codec, secrets, p).value.channel
  }

  /** Packet `p` is the same send as message `m`. */
  predicate Witnesses(codec: Codec, secrets: Secrets, p: Packet, m: Target) {
    var found := Decrypted(codec, secrets, p);
    found.Some? && StoredAs(found.value.text, Key(m)) && SameSend(m, EntryOf(p, found.value))
  }

  lemma MatchedIsNaive(codec: Codec, secrets: Secrets, packets: seq<Packet>, m: Target)
    ensures Matched(IndexOf(codec, secrets, packets), m) == NaiveMatched(codec, secrets, packets, m)
  {
    hide Decrypted, StoredAs, IndexOf, SameSend;
    var index := IndexOf(codec, secrets, packets);
    forall x | x in Matched(index, m)
      ensures x in NaiveMatched(codec, secrets, packets, m)
    {
      var e :| e in Lookup(index, Key(m)) && SameSend(m, e) && e.channel == x;
      IndexIsTheNaiveScan(codec, secrets, packets, Key(m), e);
      var p :| p in packets && Yields(codec, secrets, p, Key(m), e);
      assert Witnesses(codec, secrets, p, m);
    }
    forall x | x in NaiveMatched(codec, secrets, packets, m)
      ensures x in Matched(index, m)
    {
      var p :| p in packets && Witnesses(codec, secrets, p, m) && Decrypted(codec, secrets, p).value.channel == x;
      var e := EntryOf(p, Decrypted(codec, secrets, p).value);
      assert Yields(codec, secrets, p, Key(m), e);
      IndexIsTheNaiveScan(codec, secrets, packets, Key(m), e);
    }
  }

  datatype Verdict = FromPacket(channel: int) | FromSlot(channel: int) | Unresolved

  /** The truth of a set: it has an element. */
  predicate NonEmpty(s: set<int>) {
    exists x :: x in s
  }

  /** `len(s) == 1` */
  predicate Singleton(s: set<int>) {
    exists x :: x in s && forall y :: y in s ==> y == x
  }

  /** `set.pop` of a singleton. */
  function TheOne(s: set<int>): (x: int)
    requires Singleton(s)
    ensures x in s && forall y :: y in s ==> y == x
  {
    var x :| x in s && forall y :: y in s ==> y == x;
    x
  }

  function Decide(slotChannel: Option<int>, matched: set<int>): Verdict {
    if (slotChannel.Some? && slotChannel.value in matched) || Singleton(matched) then
      FromPacket(if slotChannel.Some? && slotChannel.value in matched then slotChannel.value else TheOne(matched))
    else if slotChannel.Some? && !NonEmpty(matched) then FromSlot(slotChannel.value)
    else Unresolved
  }

  /** The channel in a slot: `by_slot.get`. */
  function SlotChannel(channels: seq<Channel>, idx: Option<int>): Option<int> {
    if channels == [] || idx.None? then None
    else
      var last := channels[|channels| - 1];
      if last.slot == idx then Some(last.id) else SlotChannel(channels[..|channels| - 1], idx)
  }

  function Get(bySlot: map<int, int>, idx: Option<int>): Option<int> {
    if idx.Some? && idx.value in bySlot then Some(bySlot[idx.value]) else None
  }

  method BySlot(channels: seq<Channel>) returns (bySlot: map<int, int>)
    ensures forall idx :: Get(bySlot, idx) == SlotChannel(channels, idx)
  {
    bySlot := map[];
    for i := 0 to |channels|
      invariant forall idx :: Get(bySlot, idx) == SlotChannel(channels[..i], idx)
    {
      assert channels[..i + 1][..i] == channels[..i];
      if channels[i].slot.Some? {
        bySlot := bySlot[channels[i].slot.value := channels[i].id];
      }
    }
    assert channels[..|channels|] == channels;
  }

  /** With UNIQUE(slot) the order of the channels does not matter. */
  lemma {:induction false} SlotChannelMeaning(channels: seq<Channel>, i: nat, idx: int)
    requires i < |channels| && channels[i].slot == Some(idx)
    requires forall j :: 0 <= j < |channels| && j != i ==> channels[j].slot != Some(idx)
    ensures SlotChannel(channels, Some(idx)) == Some(channels[i].id)
  {
    if i < |channels| - 1 {
      SlotChannelMeaning(channels[..|channels| - 1], i, idx);
    }
  }

  // ---------------------------------------------------------------- a run

  datatype Source = Slot | Inferred | DecryptedPacket

  datatype Update = Update(channel: int, source: Source, id: nat)

  datatype Tally = Tally(decrypted: nat, inferred: nat, unresolved: nat)

  function VerdictOf(channels: seq<Channel>, index: Index, m: Target): Verdict {
    Decide(SlotChannel(channels, m.channelIdx), Matched(index, m))
  }

  function UpdatesFor(v: Verdict, id: nat): seq<Update> {
    match v
    case FromPacket(c) => [Update(c, DecryptedPacket, id)]
    case FromSlot(c) => [Update(c, Inferred, id)]
    case Unresolved => []
  }

  function Updates(channels: seq<Channel>, index: Index, targets: seq<Target>): seq<Update> {
    if targets == [] then []
    else
      var last := targets[|targets| - 1];
      Updates(channels, index, targets[..|targets| - 1]) + UpdatesFor(VerdictOf(channels, index, last), last.id)
  }

  function Count(channels: seq<Channel>, index: Index, targets: seq<Target>): Tally {
    if targets == [] then Tally(0, 0, 0)
    else
      var t, last := Count(channels, index, targets[..|targets| - 1]), targets[|targets| - 1];
      match VerdictOf(channels, index, last)
      case FromPacket(_) => t.(decrypted := t.decrypted + 1)
      case FromSlot(_) => t.(inferred := t.inferred + 1)
      case Unresolved => t.(unresolved := t.unresolved + 1)
  }

  /** How many updates have a source. */
  function Having(updates: seq<Update>, source: Source): nat {
    if updates == [] then 0
    else Having(updates[..|updates| - 1], source) + if updates[|updates| - 1].source == source then 1 else 0
  }

  lemma {:induction false} CountMeaning(channels: seq<Channel>, index: Index, targets: seq<Target>)
    ensures var t, updates := Count(channels, index, targets), Updates(channels, index, targets);
      && t.decrypted == Having(updates, DecryptedPacket) && t.inferred == Having(updates, Inferred)
      && t.unresolved + |updates| == |targets|
  {
    hide VerdictOf;
    if targets != [] {
      var before, last := targets[..|targets| - 1], targets[|targets| - 1];
      CountMeaning(channels, index, before);
      var updates, v := Updates(channels, index, before), VerdictOf(channels, index, last);
      if v.Unresolved? {
        assert updates + [] == updates;
      } else {
        var u := UpdatesFor(v, last.id)[0];
        assert (updates + [u])[..|updates|] == updates;
      }
    }
  }

  function MinTs(targets: seq<Target>): int
    requires targets != []
  {
    if |targets| == 1 then targets[0].ts
    else
      var m := MinTs(targets[1..]);
      if targets[0].ts < m then targets[0].ts else m
  }

  function MaxTs(targets: seq<Target>): int
    requires targets != []
  {
    if |targets| == 1 then targets[0].ts
    else
      var m := MaxTs(targets[1..]);
      if targets[0].ts > m then targets[0].ts else m
  }

  lemma {:induction false} WindowBounds(targets: seq<Target>)
    requires targets != []
    ensures forall t :: t in targets ==> MinTs(targets) <= t.ts <= MaxTs(targets)
    ensures exists t :: t in targets && t.ts == MinTs(targets)
    ensures exists t :: t in targets && t.ts == MaxTs(targets)
  {
    assert targets[0] in targets;
    if |targets| > 1 {
      var rest := targets[1..];
      assert targets == [targets[0]] + rest;
      WindowBounds(rest);
      var low :| low in rest && low.ts == MinTs(rest);
      var high :| high in rest && high.ts == MaxTs(rest);
      assert low in targets && high in targets;
    }
  }

  /** The packets in the scan window around the targets. */
  function Window(packets: seq<Packet>, targets: seq<Target>): seq<Packet>
    requires targets != []
  {
    Select(packets, Wanted(GRP_TXT, MinTs(targets) - SCAN_BEFORE, MaxTs(targets) + SCAN_AFTER, 0))
  }

  /** The index that a run with these targets builds; without targets it builds none. */
  function WindowIndex(codec: Codec, channels: seq<Channel>, packets: seq<Packet>, targets: seq<Target>): Index {
    if targets == [] then map[] else IndexOf(codec, SecretsOf(codec.crypto, channels), Window(packets, targets))
  }

  /** `_run` with its reads done: what it would write, and its result. */
  method Run(codec: Codec, channels: seq<Channel>, packets: seq<Packet>, targets: seq<Target>)
    returns (updates: seq<Update>, tally: Tally)
    ensures updates == Updates(channels, WindowIndex(codec, channels, packets, targets), targets)
    ensures tally == Count(channels, WindowIndex(codec, channels, packets, targets), targets)
    ensures tally.decrypted + tally.inferred + tally.unresolved == |targets|
    ensures tally.decrypted == Having(updates, DecryptedPacket) && tally.inferred == Having(updates, Inferred)
    ensures tally.unresolved == |targets| - |updates|
  {
    CountMeaning(channels, WindowIndex(codec, channels, packets, targets), targets);
    hide Matched, SlotChannel, IndexOf, SecretsOf, Window, TheOne, Get, NonEmpty, Singleton, Having, MinTs, MaxTs;
    updates, tally := [], Tally(0, 0, 0);
    if targets == [] {
      return;
    }
    var bySlot := BySlot(channels);
    var window := Window(packets, targets);
    WindowHasPayloads(packets, targets);
    var index := DecryptPackets(codec, channels, window);
    for i := 0 to |targets|
      invariant updates == Updates(channels, index, targets[..i])
      invariant tally == Count(channels, index, targets[..i])
      invariant tally.decrypted + tally.inferred + tally.unresolved == i
    {
      assert targets[..i + 1][..i] == targets[..i];
      var m := targets[i];
      var slotChannel, matched := Get(bySlot, m.channelIdx), Matched(index, m);
      if (slotChannel.Some? && slotChannel.value in matched) || Singleton(matched) {
        var channel := if slotChannel.Some? && slotChannel.value in matched then slotChannel.value else TheOne(matched);
        updates := updates + [Update(channel, DecryptedPacket, m.id)];
        tally := tally.(decrypted := tally.decrypted + 1);
      } else if slotChannel.Some? && !NonEmpty(matched) {
        updates := updates + [Update(slotChannel.value, Inferred, m.id)];
        tally := tally.(inferred := tally.inferred + 1);
      } else {
        tally := tally.(unresolved := tally.unresolved + 1);
      }
    }
    assert targets[..|targets|] == targets;
  }

  lemma WindowHasPayloads(packets: seq<Packet>, targets: seq<Target>)
    requires targets != []
    ensures forall p :: p in Window(packets, targets) ==> p.payload.Some?
  {
    SelectMeaning(packets, Wanted(GRP_TXT, MinTs(targets) - SCAN_BEFORE, MaxTs(targets) + SCAN_AFTER, 0));
  }

  // ---------------------------------------------------------------- what a verdict means

  /** Some packet that is the message's own send was encrypted under channel `x`'s secret. */
  ghost predicate Witnessed(codec: Codec, secrets: Secrets, packets: seq<Packet>, m: Target, x: int) {
    exists p :: p in packets && Witnesses(codec, secrets, p, m) && Decrypted(codec, secrets, p).value.channel == x
  }

  lemma MatchedMeaning(codec: Codec, secrets: Secrets, packets: seq<Packet>, m: Target, x: int)
    ensures x in Matched(IndexOf(codec, secrets, packets), m) <==> Witnessed(codec, secrets, packets, m, x)
  {
    MatchedIsNaive(codec, secrets, packets, m);
  }

  predicate Several(s: set<int>) {
    exists x, y :: x in s && y in s && x != y
  }

  lemma TwoOf(s: set<int>)
    requires NonEmpty(s) && !Singleton(s)
    ensures Several(s)
  {
    var x :| x in s;
    var y :| y in s && y != x;
  }

  lemma DecideMeaning(slot: Option<int>, matched: set<int>)
    ensures var v := Decide(slot, matched);
      && (v.FromPacket? ==>
            && v.channel in matched
            && (slot == Some(v.channel) || forall x :: x in matched ==> x == v.channel))
      && (v.FromSlot? ==> slot == Some(v.channel) && forall x :: x !in matched)
      && (v.Unresolved? ==>
            || (slot.None? && forall x :: x !in matched)
            || ((slot.Some? ==> slot.value !in matched) && Several(matched)))
  {
    hide Several;
    if slot.Some? && slot.value in matched {
      assert Decide(slot, matched) == FromPacket(slot.value);
    } else if Singleton(matched) {
      assert Decide(slot, matched) == FromPacket(TheOne(matched));
    } else if NonEmpty(matched) {
      TwoOf(matched);
    }
  }

  /**
   A "decrypted" verdict rests on a packet that is the message's own send; it names the slot's
   channel when a witness does, and otherwise the only channel that any witness names. "Inferred"
   means that there is no witness at all, and a message stays unresolved only without witness and
   slot, or when witnesses name several channels, none of them the slot's.
   */
  lemma VerdictMeaning(codec: Codec, channels: seq<Channel>, packets: seq<Packet>, m: Target)
    ensures
      var secrets, slot := SecretsOf(codec.crypto, channels), SlotChannel(channels, m.channelIdx);
      var v := VerdictOf(channels, IndexOf(codec, secrets, packets), m);
      && (v.FromPacket? ==>
            && Witnessed(codec, secrets, packets, m, v.channel)
            && (slot == Some(v.channel) || forall x :: Witnessed(codec, secrets, packets, m, x) ==> x == v.channel))
      && (v.FromSlot? ==> slot == Some(v.channel) && forall x :: !Witnessed(codec, secrets, packets, m, x))
      && (v.Unresolved? ==>
            || (slot.None? && forall x :: !Witnessed(codec, secrets, packets, m, x))
            || (&& (slot.Some? ==> !Witnessed(codec, secrets, packets, m, slot.value))
                && exists x, y ::
                     x != y && Witnessed(codec, secrets, packets, m, x) && Witnessed(codec, secrets, packets, m, y)))
  {
    hide Witnessed, IndexOf, Matched, SecretsOf, SlotChannel, Decide;
    var secrets := SecretsOf(codec.crypto, channels);
    var matched := Matched(IndexOf(codec, secrets, packets), m);
    forall x
      ensures x in matched <==> Witnessed(codec, secrets, packets, m, x)
    {
      MatchedMeaning(codec, secrets, packets, m, x);
    }
    DecideMeaning(SlotChannel(channels, m.channelIdx), matched);
  }

  // ---------------------------------------------------------------- from the air to the attribution

  /** The table of secrets has each channel under the hash byte of its secret, and nothing else. */
  lemma {:induction false} SecretsMeaning(c: Crypto, channels: seq<Channel>, body: Bytes, k: Keyed)
    requires body != []
    ensures k in Candidates(body, SecretsOf(c, channels)) <==>
              exists d :: d in channels && c.hash(d.secret) == body[0] && k == Keyed(d.id, d.secret)
  {
    if channels != [] {
      var before, last := channels[..|channels| - 1], channels[|channels| - 1];
      SecretsMeaning(c, before, body, k);
      assert channels == before + [last];
    }
  }

  /** No other channel's secret has a MAC that happens to verify this body. */
  ghost predicate OnlyVerifier(c: Crypto, channels: seq<Channel>, own: Channel, body: Bytes)
    requires WellFormed(body)
  {
    forall d :: d in channels && Verifies(c, body, Keyed(d.id, d.secret)) ==> d.id == own.id && d.secret == own.secret
  }

  lemma EncryptedPacketDecrypts(codec: Codec, channels: seq<Channel>, own: Channel, p: Packet, timestamp: nat,
      kind: byte, text: Bytes)
    requires Lawful(codec.crypto) && timestamp < 0x1_0000_0000 && Stripped(text, 0)
    requires own in channels && p.payload.Some?
    requires var body := Encrypted(codec.crypto, own.secret, timestamp, kind, text);
      codec.parse(p.payload.value) == body && WellFormed(body) && OnlyVerifier(codec.crypto, channels, own, body)
    ensures Decrypted(codec, SecretsOf(codec.crypto, channels), p)
         == Some(Found(own.id, timestamp, codec.crypto.decode(text)))
  {
    hide Encrypted, WellFormed, SecretsOf, Lawful, Read, GroupText.Decrypt, Verifies, GroupText.Candidates;
    var c, body := codec.crypto, codec.parse(p.payload.value);
    var secrets, key := SecretsOf(c, channels), Keyed(own.id, own.secret);
    EncryptedReads(c, own.secret, timestamp, kind, text, own.id);
    assert body != [] by { WellFormedIsNotEmpty(body); }
    SecretsMeaning(c, channels, body, key);
    var keys := Candidates(body, secrets);
    var i :| 0 <= i < |keys| && keys[i] == key;
    SomeFirst(c, body, keys, i);
    var n: nat :| FirstVerifying(c, body, keys, n);
    SecretsMeaning(c, channels, body, keys[n]);
    assert keys[n] == key;
    DecryptMeaning(c, body, secrets);
  }

  lemma WellFormedIsNotEmpty(body: Bytes)
    requires WellFormed(body)
    ensures body != []
  {
  }

  /**
   From end to end: a message whose own packet is in the log, encrypted under a known channel's
   secret, is never put down to its slot alone, and is attributed to that channel if the channel is
   the one in its slot or no other channel's packet is the message's send too.
   */
  lemma OwnPacketDecides(codec: Codec, channels: seq<Channel>, packets: seq<Packet>, own: Channel, p: Packet, m: Target,
      timestamp: nat, kind: byte, text: Bytes)
    requires Lawful(codec.crypto) && timestamp < 0x1_0000_0000 && Stripped(text, 0)
    requires own in channels && p in packets && p.payload.Some?
    requires var body := Encrypted(codec.crypto, own.secret, timestamp, kind, text);
      codec.parse(p.payload.value) == body && WellFormed(body) && OnlyVerifier(codec.crypto, channels, own, body)
    requires StoredAs(codec.crypto.decode(text), Key(m)) && SameSend(m, Entry(own.id, p.ts, timestamp))
    ensures
      var secrets := SecretsOf(codec.crypto, channels);
      var v := VerdictOf(channels, IndexOf(codec, secrets, packets), m);
      && !v.FromSlot?
      && (SlotChannel(channels, m.channelIdx) == Some(own.id)
          || (forall x :: Witnessed(codec, secrets, packets, m, x) ==> x == own.id)
          ==> v == FromPacket(own.id))
  {
    hide Lawful, Encrypted, WellFormed, OnlyVerifier, StoredAs, SameSend, Key, Stripped;
    hide IndexOf, SecretsOf, Matched, Decrypted;
    var secrets, slot := SecretsOf(codec.crypto, channels), SlotChannel(channels, m.channelIdx);
    EncryptedPacketDecrypts(codec, channels, own, p, timestamp, kind, text);
    assert Witnesses(codec, secrets, p, m);
    assert Witnessed(codec, secrets, packets, m, own.id);
    hide Witnesses, Witnessed, SlotChannel;
    var matched := Matched(IndexOf(codec, secrets, packets), m);
    forall x
      ensures x in matched <==> Witnessed(codec, secrets, packets, m, x)
    {
      MatchedMeaning(codec, secrets, packets, m, x);
    }
    WitnessDecides(slot, matched, own.id);
  }

  lemma WitnessDecides(slot: Option<int>, matched: set<int>, x: int)
    requires x in matched
    ensures !Decide(slot, matched).FromSlot?
    ensures slot == Some(x) || (forall y :: y in matched ==> y == x) ==> Decide(slot, matched) == FromPacket(x)
  {
    if forall y :: y in matched ==> y == x {
      assert Singleton(matched);
    }
  }

  /** The same for a sent message, of which only the part after the sender's name is stored. */
  lemma SentMessageDecides(codec: Codec, channels: seq<Channel>, packets: seq<Packet>, own: Channel, p: Packet,
      m: Target, timestamp: nat, kind: byte, text: Bytes, sender: string)
    requires Lawful(codec.crypto) && timestamp < 0x1_0000_0000 && Stripped(text, 0)
    requires own in channels && p in packets && p.payload.Some?
    requires var body := Encrypted(codec.crypto, own.secret, timestamp, kind, text);
      codec.parse(p.payload.value) == body && WellFormed(body) && OnlyVerifier(codec.crypto, channels, own, body)
    requires codec.crypto.decode(text) == sender + ": " + m.text && Unseparated(sender + ":") && Stripped(m.text, '\0')
    requires SameSend(m, Entry(own.id, p.ts, timestamp))
    ensures
      var secrets := SecretsOf(codec.crypto, channels);
      var v := VerdictOf(channels, IndexOf(codec, secrets, packets), m);
      && !v.FromSlot?
      && (SlotChannel(channels, m.channelIdx) == Some(own.id)
          || (forall x :: Witnessed(codec, secrets, packets, m, x) ==> x == own.id)
          ==> v == FromPacket(own.id))
  {
    hide Lawful, Encrypted, WellFormed, OnlyVerifier, SameSend, IndexOf, SecretsOf, Matched, Decrypted, Unseparated;
    SeparatorMeaning(sender, m.text);
    StripPadding(m.text, 0, '\0');
    assert m.text + Repeat(0, '\0') == m.text;
    OwnPacketDecides(codec, channels, packets, own, p, m, timestamp, kind, text);
  }

  // ---------------------------------------------------------------- the same send, in seconds

  /** A sender's time decides alone if it is there and not zero; else the receive times do, to a minute. */
  lemma SameSendMeaning(m: Target, e: Entry)
    ensures SameSend(m, e) <==>
              if m.senderTimestamp == None || m.senderTimestamp == Some(0) then e.ts - 60 <= m.ts <= e.ts + 60
              else m.senderTimestamp == Some(e.senderTimestamp)
  {
  }

  /** A run reads the packets from a day before its first candidate to an hour after its last. */
  lemma WindowInSeconds(packets: seq<Packet>, targets: seq<Target>, p: Packet, first: Target, last: Target)
    requires first in targets && last in targets
    requires forall t :: t in targets ==> first.ts <= t.ts <= last.ts
    ensures p in Window(packets, targets) <==>
              && p in packets && p.payloadType == Some(5) && p.payload.Some? && p.id > 0
              && first.ts - 24 * 60 * 60 <= p.ts < last.ts + 60 * 60
  {
    SelectMeaning(packets, Wanted(GRP_TXT, MinTs(targets) - SCAN_BEFORE, MaxTs(targets) + SCAN_AFTER, 0));
    WindowBounds(targets);
  }
}
