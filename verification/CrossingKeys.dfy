/** Keys can cross: a run from the start of the system in which two clients end up with different keys for each other. */
module CrossingKeys {
  import opened Wrappers
  import opened Bytes
  import opened Protocol
  import opened Records
  import opened ResponseWriter
  import opened Storage
  import opened DataManager
  import opened Client
  import opened Runs
  import opened Registration
  import opened KeyAgreement
  import opened Rounds
  import opened Steps

  // ---------- The run ----------

  const NAME_A: Bytes := [65]
  const NAME_B: Bytes := [66]
  const ID_A: Uuid := Zeros(16)
  const ID_B: Uuid := [1] + Zeros(15)

  function Rows(a: nat, b: nat, keys: seq<Bytes>, c: Crypto): seq<ClientRow>
    requires a < |keys| && b < |keys|
  {
    [ClientRow(ID_A, NAME_A, c.publicKeyOf(keys[a])), ClientRow(ID_B, NAME_B, c.publicKeyOf(keys[b]))]
  }

  /** Both clients register. */
  lemma Registered(a: nat, b: nat, rnd: Random, keys: seq<Bytes>, c: Crypto) returns (steps: seq<Step>)
    requires Keys(keys, c) && Lawful(c) && a < |keys| && b < |keys| && a != b
    ensures var w := AtomicRun(Initial(keys), steps, c);
      && w.db == Db(Rows(a, b, keys, c), [], 0) && Idle(w, a, ID_A) && Idle(w, b, ID_B)
      && w.hosts[a].process.state.names == map[] && w.hosts[a].process.state.peers == map[]
      && w.hosts[b].process.state.names == map[] && w.hosts[b].process.state.peers == map[]
  {
    hide Lawful, Keys, Hex, AtomicRun;
    var w0 := Initial(keys);
    var first := RegisterRound(w0, a, NAME_A, ID_A, rnd, keys, c);
    var w1 := AtomicRun(w0, first, c);
    assert w1.db.clients == [Rows(a, b, keys, c)[0]];
    assert ID_A[0] != ID_B[0] && NAME_A[0] != NAME_B[0];
    var second := RegisterRound(w1, b, NAME_B, ID_B, rnd, keys, c);
    var w2 := AtomicRun(w1, second, c);
    assert w2.db.clients == Rows(a, b, keys, c);
    steps := first + second;
    AtomicRunConcat(w0, first, second, c);
    assert w2.db.clients[0].id == ID_A && w2.db.clients[1].id == ID_B;
  }

  lemma ListedOne(st: ClientState, v: Uuid, name: Bytes)
    requires st.names == map[] && st.peers == map[] && |name| <= 255 && 0 !in name
    ensures InsertClients(st, ListedClients(EntriesOf([(v, name)]))) == st.(names := map[name := Hex(v)], peers := map[Hex(v) := Peer(name, [], [])])
  {
    ListedNameKept(name);
    hide Hex, CString, PadTo;
    var cs := ListedClients(EntriesOf([(v, name)]));
    assert cs[0] == ClientEntry(Hex(v), name) && cs[..0] == [];
    assert InsertClients(st, []) == st;
    assert InsertClients(st, cs) == InsertClient(st, cs[0]);
  }

  /** Host i, which knows nobody yet, is given a list with one client. */
  lemma IntroductionRound(w: World, i: nat, u: Uuid, v: Uuid, name: Bytes, rnd: Random, c: Crypto) returns (steps: seq<Step>, process: Process)
    requires Idle(w, i, u) && w.hosts[i].process.state.names == map[] && w.hosts[i].process.state.peers == map[]
    requires OtherClients(w.db.clients, u) == [(v, name)] && |name| <= 255 && 0 !in name
    ensures var w' := AtomicRun(w, steps, c);
      AfterRound(w, w', i, w.db, process) && Idle(w', i, u) && Knows(w', i, name, v, [])
  {
    FourBytesBound(271);
    hide Hex, AtomicRun, HasClient, InsertClients, OtherClients, FourBytes;
    steps := ListRound(w, i, u, rnd, c);
    ListedOne(w.hosts[i].process.state, v, name);
    process := AtomicRun(w, steps, c).hosts[i].process;
    StillIdle(w, AtomicRun(w, steps, c), i, i, u, w.db, process);
  }

  lemma OthersOf(a: nat, b: nat, keys: seq<Bytes>, c: Crypto)
    requires a < |keys| && b < |keys|
    ensures var rows := Rows(a, b, keys, c);
      && OtherClients(rows, ID_A) == [(ID_B, NAME_B)] && OtherClients(rows, ID_B) == [(ID_A, NAME_A)]
      && PublicKeyOf(rows, ID_A) == Some(c.publicKeyOf(keys[a])) && PublicKeyOf(rows, ID_B) == Some(c.publicKeyOf(keys[b]))
  {
    var rows := Rows(a, b, keys, c);
    assert ID_A[0] != ID_B[0];
    assert rows == [] + [rows[0]] + [rows[1]] && rows[1..] == [rows[1]];
    forall id: Uuid | id == ID_A || id == ID_B
      ensures OtherClients(rows, id) == (if id == ID_A then [] else [(ID_A, NAME_A)]) + (if id == ID_B then [] else [(ID_B, NAME_B)])
    {
      OthersSnoc([], rows[0], id);
      OthersSnoc([] + [rows[0]], rows[1], id);
    }
  }

  /** Both clients get the client list. */
  lemma Introduced(a: nat, b: nat, rnd: Random, keys: seq<Bytes>, c: Crypto) returns (steps: seq<Step>)
    requires Keys(keys, c) && Lawful(c) && a < |keys| && b < |keys| && a != b
    ensures var w := AtomicRun(Initial(keys), steps, c);
      && w.db == Db(Rows(a, b, keys, c), [], 0) && Idle(w, a, ID_A) && Idle(w, b, ID_B)
      && Knows(w, a, NAME_B, ID_B, []) && Knows(w, b, NAME_A, ID_A, [])
  {
    var w0 := Initial(keys);
    var before := Registered(a, b, rnd, keys, c);
    OthersOf(a, b, keys, c);
    hide Lawful, Keys, Hex, AtomicRun, HasClient, InsertClients, Initial, OtherClients, PublicKeyOf, Rows;
    var w1 := AtomicRun(w0, before, c);
    var first, processA := IntroductionRound(w1, a, ID_A, ID_B, NAME_B, rnd, c);
    var w2 := AtomicRun(w1, first, c);
    StillIdle(w1, w2, a, b, ID_B, w1.db, processA);
    var second, processB := IntroductionRound(w2, b, ID_B, ID_A, NAME_A, rnd, c);
    var w3 := AtomicRun(w2, second, c);
    StillIdle(w2, w3, b, a, ID_A, w2.db, processB);
    hide Idle, AfterRound;
    steps := before + first + second;
    AtomicRunConcat(w0, before, first, c);
    AtomicRunConcat(w0, before + first, second, c);
  }

  /** Both clients get the other's public key. */
  lemma Acquainted(a: nat, b: nat, rnd: Random, keys: seq<Bytes>, c: Crypto) returns (steps: seq<Step>)
    requires Keys(keys, c) && Lawful(c) && a < |keys| && b < |keys| && a != b
    ensures var w := AtomicRun(Initial(keys), steps, c);
      && w.db == Db(Rows(a, b, keys, c), [], 0) && Idle(w, a, ID_A) && Idle(w, b, ID_B)
      && Knows(w, a, NAME_B, ID_B, c.publicKeyOf(keys[b])) && Knows(w, b, NAME_A, ID_A, c.publicKeyOf(keys[a]))
  {
    var w0 := Initial(keys);
    var before := Introduced(a, b, rnd, keys, c);
    OthersOf(a, b, keys, c);
    assert |c.publicKeyOf(keys[a])| == 160 && |c.publicKeyOf(keys[b])| == 160;
    hide Lawful, Keys, Hex, AtomicRun, HasClient, InsertClients, Initial, OtherClients, PublicKeyOf, Rows;
    var w1 := AtomicRun(w0, before, c);
    var first := KeyRound(w1, a, ID_A, NAME_B, ID_B, rnd, c);
    var w2 := AtomicRun(w1, first, c);
    StillIdle(w1, w2, a, b, ID_B, w1.db, w2.hosts[a].process);
    StillIdle(w1, w2, a, a, ID_A, w1.db, w2.hosts[a].process);
    var second := KeyRound(w2, b, ID_B, NAME_A, ID_A, rnd, c);
    var w3 := AtomicRun(w2, second, c);
    StillIdle(w2, w3, b, a, ID_A, w2.db, w3.hosts[b].process);
    StillIdle(w2, w3, b, b, ID_B, w2.db, w3.hosts[b].process);
    steps := before + first + second;
    AtomicRunConcat(w0, before, first, c);
    AtomicRunConcat(w0, before + first, second, c);
  }

  lemma QueuesOfTwo(m: StoredMessage, m': StoredMessage)
    requires m.to != m'.to && m.id != m'.id
    ensures QueueOf([m, m'], m'.to) == [m'] && WithoutIds([m, m'], {m'.id}) == [m] && QueueOf([m], m.to) == [m]
  {
    hide *;
    assert [] + [m] == [m] && [m] + [m'] == [m, m'];
    QueueSnoc([], m, m.to);
    QueueSnoc([], m, m'.to);
    QueueSnoc([m], m', m'.to);
    WithoutSnoc([], m, {m'.id});
    WithoutSnoc([m], m', {m'.id});
    NothingYet(m.to, {m'.id});
    NothingYet(m'.to, {m'.id});
  }

  lemma NothingYet(to: Uuid, ids: set<nat>)
    ensures QueueOf([], to) == [] && WithoutIds([], ids) == []
  {
  }

  lemma QueueSnoc(ms: seq<StoredMessage>, m: StoredMessage, to: Uuid)
    ensures QueueOf(ms + [m], to) == QueueOf(ms, to) + if m.to == to then [m] else []
  {
    assert (ms + [m])[..|ms|] == ms;
  }

  lemma WithoutSnoc(ms: seq<StoredMessage>, m: StoredMessage, ids: set<nat>)
    ensures WithoutIds(ms + [m], ids) == WithoutIds(ms, ids) + if m.id in ids then [] else [m]
  {
    assert (ms + [m])[..|ms|] == ms;
  }

  /** What is on the server, and what the two have, when each has sent its key and none has read the other's. */
  ghost predicate KeysSent(w: World, a: nat, b: nat, m: StoredMessage, m': StoredMessage, kA: AesKey, kB: AesKey, keys: seq<Bytes>, c: Crypto)
    requires a < |keys| && b < |keys|
  {
    && Idle(w, a, ID_A) && Idle(w, b, ID_B) && w.db.messages == [m, m'] && m.id == 1 && m'.id == 2
    && m.to == m'.from == ID_B && m.from == m'.to == ID_A && m.messageType == m'.messageType == SEND_SYMMETRIC_KEY
    && |m.content| == |m'.content| == 128
    && c.rsaDecrypt(keys[b], m.content) == Some(kA) && c.rsaDecrypt(keys[a], m'.content) == Some(kB)
    && SymmetricKey(w.hosts[a].process.state, Hex(ID_B)) == kA && SymmetricKey(w.hosts[b].process.state, Hex(ID_A)) == kB
  }

  /** Each of the two makes a key and sends it before it read the other's. */
  lemma SendBoth(w: World, a: nat, b: nat, rndA: Random, rndB: Random, keys: seq<Bytes>, c: Crypto)
    returns (first: seq<Step>, second: seq<Step>, m: StoredMessage, m': StoredMessage)
    requires Keys(keys, c) && Lawful(c) && a < |keys| && b < |keys| && a != b
    requires w.db.messages == [] && w.db.lastId == 0 && Idle(w, a, ID_A) && Idle(w, b, ID_B)
    requires Knows(w, a, NAME_B, ID_B, c.publicKeyOf(keys[b])) && Knows(w, b, NAME_A, ID_A, c.publicKeyOf(keys[a]))
    ensures var w' := AtomicRun(w, first, c);
      && first != [] && MakesKey(w, first[0], a, Hex(ID_B), c) && first[0].rnd == rndA
      && second != [] && MakesKey(w', second[0], b, Hex(ID_A), c) && second[0].rnd == rndB
      && KeysSent(AtomicRun(w', second, c), a, b, m, m', rndA.symmetricKey, rndB.symmetricKey, keys, c)
  {
    assert c.isPrivateKey(keys[a]) && c.isPrivateKey(keys[b]);
    hide Lawful, Keys, Hex, AtomicRun, HasClient, MakesKey;
    var content, content';
    first, content := SendKeyRound(w, a, ID_A, NAME_B, ID_B, keys[b], rndA, c);
    var w1 := AtomicRun(w, first, c);
    StillIdle(w, w1, a, a, ID_A, w1.db, w1.hosts[a].process);
    StillIdle(w, w1, a, b, ID_B, w1.db, w1.hosts[a].process);
    second, content' := SendKeyRound(w1, b, ID_B, NAME_A, ID_A, keys[a], rndB, c);
    var w2 := AtomicRun(w1, second, c);
    StillIdle(w1, w2, b, a, ID_A, w2.db, w2.hosts[b].process);
    StillIdle(w1, w2, b, b, ID_B, w2.db, w2.hosts[b].process);
    m, m' := w2.db.messages[0], w2.db.messages[1];
  }

  lemma BothMake(a: nat, b: nat, rndA: Random, rndB: Random, keys: seq<Bytes>, c: Crypto)
    returns (steps: seq<Step>, i: nat, j: nat, m: StoredMessage, m': StoredMessage)
    requires Keys(keys, c) && Lawful(c) && a < |keys| && b < |keys| && a != b
    ensures KeysSent(AtomicRun(Initial(keys), steps, c), a, b, m, m', rndA.symmetricKey, rndB.symmetricKey, keys, c)
    ensures i < j < |steps|
      && MakesKey(AtomicRun(Initial(keys), steps[..i], c), steps[i], a, Hex(ID_B), c) && steps[i].rnd == rndA
      && MakesKey(AtomicRun(Initial(keys), steps[..j], c), steps[j], b, Hex(ID_A), c) && steps[j].rnd == rndB
  {
    var w0 := Initial(keys);
    var before := Acquainted(a, b, rndA, keys, c);
    var first, second;
    first, second, m, m' := SendBoth(AtomicRun(w0, before, c), a, b, rndA, rndB, keys, c);
    hide *;
    steps := before + first + second;
    i, j := |before|, |before + first|;
    AtomicRunConcat(w0, before, first, c);
    AtomicRunConcat(w0, before + first, second, c);
    assert steps[..i] == before && steps[i] == first[0];
    assert steps[..j] == before + first && steps[j] == second[0];
  }

  lemma HasPrivateKey(w: World, i: nat, keys: seq<Bytes>, c: Crypto)
    requires Inv(w, keys, c) && Keys(keys, c) && i < |w.hosts|
    ensures i < |keys| && w.hosts[i].process.state.privateKey == keys[i] != []
  {
    assert HostOk(Dir(w), keys, c, i, w.hosts[i].process);
  }

  /** What BothMake leaves, after both have pulled: the keys are swapped. */
  lemma BothPull(w: World, a: nat, b: nat, rnd: Random, m: StoredMessage, m': StoredMessage, kA: AesKey, kB: AesKey, keys: seq<Bytes>, c: Crypto)
    returns (steps: seq<Step>)
    requires Inv(w, keys, c) && Keys(keys, c) && a < |keys| && b < |keys| && a != b && KeysSent(w, a, b, m, m', kA, kB, keys, c)
    ensures var w' := AtomicRun(w, steps, c);
      && Idle(w', a, ID_A) && Idle(w', b, ID_B)
      && SymmetricKey(w'.hosts[a].process.state, Hex(ID_B)) == kB && SymmetricKey(w'.hosts[b].process.state, Hex(ID_A)) == kA
  {
    HasPrivateKey(w, a, keys, c);
    HasPrivateKey(w, b, keys, c);
    assert ID_A[0] != ID_B[0];
    QueuesOfTwo(m, m');
    hide Inv, Keys, Hex, AtomicRun, HasClient, QueueOf, WithoutIds;
    var first := PullKeyRound(w, a, ID_A, ID_B, m', kB, rnd, c);
    var w1 := AtomicRun(w, first, c);
    StillIdle(w, w1, a, a, ID_A, w1.db, w1.hosts[a].process);
    StillIdle(w, w1, a, b, ID_B, w1.db, w1.hosts[a].process);
    var second := PullKeyRound(w1, b, ID_B, ID_A, m, kA, rnd, c);
    var w2 := AtomicRun(w1, second, c);
    StillIdle(w1, w2, b, a, ID_A, w2.db, w2.hosts[b].process);
    StillIdle(w1, w2, b, b, ID_B, w2.db, w2.hosts[b].process);
    steps := first + second;
    AtomicRunConcat(w, first, second, c);
  }

  lemma AtIsAtomic(keys: seq<Bytes>, steps: seq<Step>, n: nat, c: Crypto)
    requires n <= |steps| && Keys(keys, c) && Lawful(c)
    ensures At(keys, steps, n, c) == AtomicRun(Initial(keys), steps[..n], c)
  {
    hide Run, AtomicRun, Inv, FramesTrue, Keys, Lawful;
    RunInv(steps[..n], keys, c);
  }

  lemma BothMakeCross(making: seq<Step>, more: seq<Step>, i: nat, j: nat, p: Pair, keys: seq<Bytes>, c: Crypto)
    requires Keys(keys, c) && Lawful(c) && i < j < |making|
    requires MakesKey(AtomicRun(Initial(keys), making[..i], c), making[i], p.a, p.y, c)
    requires MakesKey(AtomicRun(Initial(keys), making[..j], c), making[j], p.b, p.x, c)
    requires making[i].rnd.symmetricKey != making[j].rnd.symmetricKey
    ensures KeysCross(keys, making + more, p, c)
  {
    var steps := making + more;
    AtIsAtomic(keys, steps, i, c);
    AtIsAtomic(keys, steps, j, c);
    assert steps[..i] == making[..i] && steps[..j] == making[..j];
    hide At, AtomicRun, MakesKey, Keys, Lawful, Initial;
    assert Crossing(keys, steps, i, j, p, c);
  }

  lemma DifferentKeys(w: World, p: Pair, keys: seq<Bytes>, c: Crypto)
    requires Agreed(w, p, keys, c) && KeyOfA(w, p) != [] && KeyOfB(w, p) != []
    ensures KeyOfA(w, p) == KeyOfB(w, p)
  {
    hide KeyOfA, KeyOfB, ReadsTruly, Hex;
  }

  /**
   Keys do cross, for any lawful crypto, any two clients and any two different keys: there is a run in which both get
   registered, each makes its key and sends it, and each then reads the other's. At its end the keys are swapped: each uses
   the key that the other no longer has.
   */
  lemma KeysCanCross(a: nat, b: nat, rndA: Random, rndB: Random, keys: seq<Bytes>, c: Crypto) returns (steps: seq<Step>, p: Pair)
    requires Keys(keys, c) && Lawful(c) && a < |keys| && b < |keys| && a != b && rndA.symmetricKey != rndB.symmetricKey
    ensures p.a == a && p.b == b && BothRegistered(keys, steps, p, c) && KeysCross(keys, steps, p, c)
    ensures var w := At(keys, steps, |steps|, c);
      && KeyOfA(w, p) == rndB.symmetricKey && KeyOfB(w, p) == rndA.symmetricKey
      && !Agreed(w, p, keys, c)
  {
    p := Pair(a, b, Hex(ID_A), Hex(ID_B));
    hide Keys, Lawful, Hex, AtomicRun, Initial, At, MakesKey, KeysCross, Inv, Agreed, HasClient;
    var making, i, j, m, m' := BothMake(a, b, rndA, rndB, keys, c);
    RunKeeps(making, keys, c);
    var w := AtomicRun(Initial(keys), making, c);
    var reading := BothPull(w, a, b, rndA, m, m', rndA.symmetricKey, rndB.symmetricKey, keys, c);
    steps := making + reading;
    AtomicRunConcat(Initial(keys), making, reading, c);
    BothMakeCross(making, reading, i, j, p, keys, c);
    assert steps[..|steps|] == steps;
    AtIsAtomic(keys, steps, |steps|, c);
    var w' := At(keys, steps, |steps|, c);
    assert |rndA.symmetricKey| == 16 && |rndB.symmetricKey| == 16;
    if Agreed(w', p, keys, c) {
      DifferentKeys(w', p, keys, c);
    }
  }
}
