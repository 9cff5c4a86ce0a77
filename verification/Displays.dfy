/** What a client learns from a pull and what it shows of it, for any messages from anybody. */
module Displays {
  import opened Wrappers
  import opened Bytes
  import opened Records
  import opened ResponseReader
  import opened DataManager
  import opened Client

  /** The key in a message from the known client h, when the message is a key message that the client can decrypt. */
  function KeyFrom(st: ClientState, m: Record<HexId>, h: HexId, c: Crypto): Option<Bytes> {
    if m.from == h && h in st.peers && m.messageType == 1 && st.privateKey != [] then c.rsaDecrypt(st.privateKey, m.content) else None
  }

  /** The client's key for h once it has handled a pull with these messages. */
  function KeyAfter(st: ClientState, ms: seq<Record<HexId>>, c: Crypto, h: HexId): Bytes {
    SymmetricKey(HandleResponse(st, Messages(ms), c).0, h)
  }

  lemma KeyStep(st: ClientState, ms: seq<Record<HexId>>, c: Crypto, h: HexId)
    requires ms != []
    ensures var init, m := ms[..|ms| - 1], ms[|ms| - 1];
      KeyAfter(st, ms, c, h) == if KeyFrom(st, m, h, c).Some? then KeyFrom(st, m, h, c).value else KeyAfter(st, init, c, h)
  {
    OnlyKeysChange(st, ms[..|ms| - 1], c);
  }

  /** A pull changes nothing in a client but symmetric keys of known peers. */
  lemma {:induction false} OnlyKeysChange(st: ClientState, ms: seq<Record<HexId>>, c: Crypto)
    ensures var st' := HandleResponse(st, Messages(ms), c).0;
      && st'.(peers := st.peers) == st && st'.peers.Keys == st.peers.Keys
      && forall h :: h in st.peers ==> st'.peers[h].(symmetricKey := st.peers[h].symmetricKey) == st.peers[h]
  {
    if ms != [] {
      OnlyKeysChange(st, ms[..|ms| - 1], c);
    }
  }

  /** The key for h after a pull is the one in the last key message from h that decrypts, and stays when there is none. */
  lemma {:induction false} KeyAfterPull(st: ClientState, ms: seq<Record<HexId>>, c: Crypto, h: HexId)
    ensures forall n :: 0 <= n < |ms| && KeyFrom(st, ms[n], h, c).Some? && (forall k :: n < k < |ms| ==> KeyFrom(st, ms[k], h, c).None?) ==>
      KeyAfter(st, ms, c, h) == KeyFrom(st, ms[n], h, c).value
    ensures (forall n :: 0 <= n < |ms| ==> KeyFrom(st, ms[n], h, c).None?) ==> KeyAfter(st, ms, c, h) == SymmetricKey(st, h)
  {
    if ms != [] {
      var init := ms[..|ms| - 1];
      KeyAfterPull(st, init, c, h);
      KeyStep(st, ms, c, h);
      hide KeyAfter, KeyFrom;
      assert forall n :: 0 <= n < |init| ==> init[n] == ms[n];
    }
  }

  /** Key messages that do not decrypt, or wrap the key that is there already, leave it. */
  lemma {:induction false} KeyStays(st: ClientState, ms: seq<Record<HexId>>, c: Crypto, h: HexId)
    requires forall m :: m in ms ==> KeyFrom(st, m, h, c).None? || KeyFrom(st, m, h, c).value == SymmetricKey(st, h)
    ensures KeyAfter(st, ms, c, h) == SymmetricKey(st, h)
  {
    if ms == [] {
      KeyAfterPull(st, ms, c, h);
    } else {
      KeyStays(st, ms[..|ms| - 1], c, h);
      KeyStep(st, ms, c, h);
      assert ms[|ms| - 1] in ms;
    }
  }

  /** A content under the key, if there is a key to decrypt with. */
  function PlainOfContent(key: Bytes, content: Bytes, c: Crypto): Option<Bytes> {
    if |key| == 16 then c.aesDecrypt(key, content) else None
  }

  /** What is to be shown for the n-th message of a pull: text and files are read with the key that the messages before it leave. */
  ghost predicate ShownRight(st: ClientState, ms: seq<Record<HexId>>, c: Crypto, n: nat, item: Item)
    requires n < |ms|
  {
    var m := ms[n];
    if m.from !in st.peers then item == UnknownUserId
    else
      && item.From? && item.name == st.peers[m.from].name
      && var plain := PlainOfContent(KeyAfter(st, ms[..n], c, m.from), m.content, c);
         && (m.messageType == 0 ==> item.body == KeyRequest)
         && (m.messageType == 1 ==> item.body == if KeyFrom(st, m, m.from, c).Some? then KeyReceived else CantDecrypt)
         && (m.messageType == 2 ==> item.body == if plain.Some? then Text(plain.value) else CantDecrypt)
         && (m.messageType == 3 ==> item.body == if plain.Some? then File(plain.value) else CantDecrypt)
         && (m.messageType > 3 ==> item.body == Nothing)
  }

  /** The items shown for a pull, one for each message. */
  ghost predicate InboxOf(st: ClientState, ms: seq<Record<HexId>>, c: Crypto, items: seq<Item>) {
    HandleResponse(st, Messages(ms), c).1 == Success(Inbox(items)) && |items| == |ms|
  }

  lemma LastShown(st: ClientState, ms: seq<Record<HexId>>, c: Crypto) returns (items: seq<Item>)
    requires ms != []
    ensures InboxOf(st, ms, c, items) && InboxOf(st, ms[..|ms| - 1], c, items[..|ms| - 1])
    ensures ShownRight(st, ms, c, |ms| - 1, items[|ms| - 1])
  {
    OnlyKeysChange(st, ms[..|ms| - 1], c);
    items := HandleMessages(st, ms, c).1;
  }

  /** A pull is shown as one item for each message, in order, and each item is right. */
  lemma {:induction false} PullIsShown(st: ClientState, ms: seq<Record<HexId>>, c: Crypto) returns (items: seq<Item>)
    ensures InboxOf(st, ms, c, items)
    ensures forall n :: 0 <= n < |ms| ==> ShownRight(st, ms, c, n, items[n])
  {
    if ms == [] {
      items := [];
    } else {
      var init := ms[..|ms| - 1];
      items := LastShown(st, ms, c);
      var before := PullIsShown(st, init, c);
      assert before == items[..|init|];
      forall n | 0 <= n < |ms| ensures ShownRight(st, ms, c, n, items[n]) {
        if n < |init| {
          assert init[..n] == ms[..n] && init[n] == ms[n];
          assert ShownRight(st, init, c, n, before[n]);
        }
      }
    }
  }
}
