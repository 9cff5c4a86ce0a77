/** Names can clash: a run from the start of the system after which a client's two maps are not inverse to each other. */
module ClashingNames {
  import opened Bytes
  import opened Records
  import opened ResponseWriter
  import opened Storage
  import opened DataManager
  import opened Client
  import opened Runs
  import opened Registration
  import opened Rounds
  import opened Attribution

  // The second name contains a zero byte, at which the client cuts it off.
  const NAME_A: Bytes := [65]
  const NAME_B: Bytes := [65, 0, 66]
  const NAME_D: Bytes := [68]
  const ID_A: Uuid := Zeros(16)
  const ID_B: Uuid := [1] + Zeros(15)
  const ID_D: Uuid := [2] + Zeros(15)

  lemma NamesDiffer()
    ensures ID_A != ID_B && ID_A != ID_D && ID_B != ID_D
    ensures NAME_A != NAME_B && NAME_A != NAME_D && NAME_B != NAME_D
    ensures CString(NAME_A) == CString(NAME_B)
  {
    assert ID_A[0] != ID_B[0] && ID_A[0] != ID_D[0] && ID_B[0] != ID_D[0];
    assert NAME_D[0] != NAME_A[0] && NAME_D[0] != NAME_B[0];
    assert CString(NAME_A) == [65] + CString(NAME_A[1..]);
    assert CString(NAME_B) == [65] + CString(NAME_B[1..]);
  }

  function Rows(a: nat, b: nat, d: nat, keys: seq<Bytes>, c: Crypto): seq<ClientRow>
    requires a < |keys| && b < |keys| && d < |keys|
  {
    [ClientRow(ID_A, NAME_A, c.publicKeyOf(keys[a]))] + [ClientRow(ID_B, NAME_B, c.publicKeyOf(keys[b]))] + [ClientRow(ID_D, NAME_D, c.publicKeyOf(keys[d]))]
  }

  lemma NewClient(db: Db, id: Uuid, name: Bytes)
    requires forall i :: 0 <= i < |db.clients| ==> db.clients[i].id != id && db.clients[i].name != name
    ensures !HasClient(db, id) && !HasName(db, name)
  {
  }

  /** Three clients register, two of them under names that are listed alike. */
  lemma ThreeRegister(a: nat, b: nat, d: nat, rnd: Random, keys: seq<Bytes>, c: Crypto) returns (steps: seq<Step>)
    requires Keys(keys, c) && Lawful(c) && a < |keys| && b < |keys| && d < |keys| && a != b && a != d && b != d
    ensures var w := AtomicRun(Initial(keys), steps, c);
      w.db.clients == Rows(a, b, d, keys, c) && Idle(w, d, ID_D)
  {
    NamesDiffer();
    var w0 := Initial(keys);
    hide Lawful, Keys, Hex, AtomicRun, HasClient, HasName;
    NewClient(w0.db, ID_A, NAME_A);
    var first := RegisterRound(w0, a, NAME_A, ID_A, rnd, keys, c);
    var w1 := AtomicRun(w0, first, c);
    NewClient(w1.db, ID_B, NAME_B);
    var second := RegisterRound(w1, b, NAME_B, ID_B, rnd, keys, c);
    var w2 := AtomicRun(w1, second, c);
    NewClient(w2.db, ID_D, NAME_D);
    var third := RegisterRound(w2, d, NAME_D, ID_D, rnd, keys, c);
    var w3 := AtomicRun(w2, third, c);
    Present(w3.db, 2);
    steps := first + second + third;
    AtomicRunConcat(w0, first, second, c);
    AtomicRunConcat(w0, first + second, third, c);
  }

  lemma Present(db: Db, i: nat)
    requires i < |db.clients|
    ensures HasClient(db, db.clients[i].id)
  {
  }

  lemma OthersOfD(a: nat, b: nat, d: nat, keys: seq<Bytes>, c: Crypto)
    requires a < |keys| && b < |keys| && d < |keys|
    ensures OtherClients(Rows(a, b, d, keys, c), ID_D) == [(ID_A, NAME_A), (ID_B, NAME_B)]
  {
    NamesDiffer();
    var rows := Rows(a, b, d, keys, c);
    hide Zeros;
    assert [] + [rows[0]] == [rows[0]];
    OthersSnoc([], rows[0], ID_D);
    OthersSnoc([rows[0]], rows[1], ID_D);
    OthersSnoc([rows[0]] + [rows[1]], rows[2], ID_D);
  }

  /**
   For any three clients there is a run in which two register under different names that are listed alike, and the third gets
   the client list: afterwards its maps are not inverse, one of the two cannot be found under its name.
   */
  lemma NamesCanClash(a: nat, b: nat, d: nat, rnd: Random, keys: seq<Bytes>, c: Crypto) returns (steps: seq<Step>)
    requires Keys(keys, c) && Lawful(c) && a < |keys| && b < |keys| && d < |keys| && a != b && a != d && b != d
    ensures var w := Run(Initial(keys), steps, c);
      && d < |w.hosts| && UniqueRows(w.db.clients) && NamesClash(w, d) && !MapsInverse(w.hosts[d].process.state)
  {
    var before := ThreeRegister(a, b, d, rnd, keys, c);
    OthersOfD(a, b, d, keys, c);
    NamesDiffer();
    hide Lawful, Keys, Hex, AtomicRun, HasClient, OtherClients, Run, Initial, CString, PadTo, NamesClash, MapsInverse, UniqueRows, FourBytes;
    var w := AtomicRun(Initial(keys), before, c);
    FourBytesBound(542);
    var list := ListRound(w, d, ID_D, rnd, c);
    steps := before + list;
    AtomicRunConcat(Initial(keys), before, list, c);
    RunInv(steps, keys, c);
    RegistrationBinding(steps, keys, c);
    var w' := Run(Initial(keys), steps, c);
    ListKnowsBoth(w.hosts[d].process.state, [(ID_A, NAME_A), (ID_B, NAME_B)]);
    RowsClash(w', d, w'.db.clients[0], w'.db.clients[1]);
    MapsAreInverse(steps, keys, c, d);
  }

  lemma ListKnowsBoth(st: ClientState, list: seq<(Uuid, Bytes)>)
    ensures forall e :: e in list ==> Hex(e.0) in InsertClients(st, ListedClients(EntriesOf(list))).peers
  {
    var cs := ListedClients(EntriesOf(list));
    InsertKeepsRecords(st, cs);
    hide InsertClients, Hex, CString, PadTo;
    forall e | e in list ensures Hex(e.0) in InsertClients(st, cs).peers {
      var k :| 0 <= k < |list| && list[k] == e;
      assert cs[k] == ListedClient(EntriesOf(list)[k]);
    }
  }

  lemma RowsClash(w: World, i: nat, r: ClientRow, r': ClientRow)
    requires i < |w.hosts| && r in w.db.clients && r' in w.db.clients && r != r' && CString(r.name) == CString(r'.name)
    requires Hex(r.id) in w.hosts[i].process.state.peers && Hex(r'.id) in w.hosts[i].process.state.peers
    ensures NamesClash(w, i)
  {
  }
}
