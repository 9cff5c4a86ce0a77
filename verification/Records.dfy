/** The two list payloads: length-prefixed message records, and fixed-size client entries. */
module Records {
  import opened Wrappers
  import opened Bytes

  // ---------- Message records: sender id, message id, type, content size, content ----------

  datatype Record<+Id> = Record(from: Id, id: nat, messageType: Byte, content: Bytes)

  predicate Fits<Id>(r: Record<Id>) {
    r.id < 0x1_0000_0000 && |r.content| < 0x1_0000_0000
  }

  predicate AllFit<Id>(rs: seq<Record<Id>>) {
    forall i :: 0 <= i < |rs| ==> Fits(rs[i])
  }

  function EncodeRecord(r: Record<Uuid>): (s: Bytes)
    ensures |s| == 25 + |r.content|
  {
    r.from + LE(r.id, 4) + LE(r.messageType, 1) + LE(|r.content|, 4) + r.content
  }

  function EncodeRecords(rs: seq<Record<Uuid>>): (s: Bytes)
    ensures |s| == RecordsSize(rs)
  {
    if rs == [] then [] else EncodeRecord(rs[0]) + EncodeRecords(rs[1..])
  }

  function RecordsSize<Id>(rs: seq<Record<Id>>): nat {
    if rs == [] then 0 else 25 + |rs[0].content| + RecordsSize(rs[1..])
  }

  /** One record from the front of a payload, with the number of bytes it takes. */
  function ParseRecord(p: Bytes): (r: Option<(Record<Uuid>, nat)>)
    ensures r.Some? ==> 25 <= r.value.1 <= |p|
  {
    if |p| < 25 then None
    else
      var size := FromLE(p[21..25]);
      if |p| - 25 < size then None
      else Some((Record(p[..16], FromLE(p[16..20]), p[20], p[25..25 + size]), 25 + size))
  }

  function ParseRecords(p: Bytes): Option<seq<Record<Uuid>>>
    decreases |p|
  {
    if p == [] then Some([])
    else
      match ParseRecord(p)
      case None => None
      case Some((r, n)) =>
        match ParseRecords(p[n..])
        case None => None
        case Some(rs) => Some([r] + rs)
  }

  lemma LEBounds(p: Bytes, lo: nat)
    requires lo + 4 <= |p|
    ensures FromLE(p[lo..lo + 4]) < 0x1_0000_0000
    ensures LE(FromLE(p[lo..lo + 4]), 4) == p[lo..lo + 4]
  {
    LEofFromLE(p[lo..lo + 4]);
    Pow256Values();
  }

  lemma ParseOneEncoded(r: Record<Uuid>, rest: Bytes)
    requires Fits(r)
    ensures ParseRecord(EncodeRecord(r) + rest) == Some((r, |EncodeRecord(r)|))
  {
    var p := EncodeRecord(r) + rest;
    Pow256Values();
    FromLEofLE(r.id, 4);
    FromLEofLE(|r.content|, 4);
    assert p[..16] == r.from;
    assert p[16..20] == LE(r.id, 4);
    assert p[20..21] == LE(r.messageType, 1);
    assert p[20] == p[20..21][0];
    assert p[21..25] == LE(|r.content|, 4);
    assert p[25..25 + |r.content|] == r.content;
  }

  lemma EncodeOneParsed(p: Bytes)
    requires ParseRecord(p).Some?
    ensures var (r, n) := ParseRecord(p).value; Fits(r) && EncodeRecord(r) == p[..n]
  {
    var (r, n) := ParseRecord(p).value;
    LEBounds(p, 16);
    LEBounds(p, 21);
    assert LE(p[20], 1) == p[20..21];
    assert p[..n] == p[..16] + p[16..20] + p[20..21] + p[21..25] + p[25..n];
  }

  lemma {:induction false} ParseEncoded(rs: seq<Record<Uuid>>)
    requires AllFit(rs)
    ensures ParseRecords(EncodeRecords(rs)) == Some(rs)
  {
    if rs != [] {
      assert Fits(rs[0]);
      ParseOneEncoded(rs[0], EncodeRecords(rs[1..]));
      assert AllFit(rs[1..]);
      ParseEncoded(rs[1..]);
      var e := EncodeRecord(rs[0]);
      assert (e + EncodeRecords(rs[1..]))[|e|..] == EncodeRecords(rs[1..]);
      assert [rs[0]] + rs[1..] == rs;
    }
  }

  lemma {:induction false} EncodeParsed(p: Bytes)
    requires ParseRecords(p).Some?
    ensures AllFit(ParseRecords(p).value) && EncodeRecords(ParseRecords(p).value) == p
    decreases |p|
  {
    if p != [] {
      var (r, n) := ParseRecord(p).value;
      EncodeOneParsed(p);
      EncodeParsed(p[n..]);
      var rs := ParseRecords(p[n..]).value;
      assert ([r] + rs)[1..] == rs;
      assert p[..n] + p[n..] == p;
    }
  }

  /**
   The record codec is exact on arbitrary bytes: a payload is accepted as a list of records
   precisely when it is the encoding of that list. Decoding is therefore unique, and encoding injective.
   */
  lemma RecordCodecExact(p: Bytes, rs: seq<Record<Uuid>>)
    ensures ParseRecords(p) == Some(rs) <==> AllFit(rs) && EncodeRecords(rs) == p
  {
    if AllFit(rs) && EncodeRecords(rs) == p {
      ParseEncoded(rs);
    }
    if ParseRecords(p) == Some(rs) {
      EncodeParsed(p);
    }
  }

  function HexRecord(r: Record<Uuid>): Record<HexId> {
    Record(Hex(r.from), r.id, r.messageType, r.content)
  }

  function HexRecords(rs: seq<Record<Uuid>>): (hs: seq<Record<HexId>>)
    ensures |hs| == |rs|
    ensures forall i :: 0 <= i < |rs| ==> hs[i] == HexRecord(rs[i])
  {
    seq(|rs|, i requires 0 <= i < |rs| => HexRecord(rs[i]))
  }

  // ---------- Client entries: id, then the name in 255 bytes ----------

  datatype ClientEntry<+Id> = ClientEntry(id: Id, name: Bytes)

  /** struct's "255s": longer byte strings are cut, shorter ones padded with zeros. */
  function PadTo(s: Bytes, n: nat): (r: Bytes)
    ensures |r| == n
  {
    s[..Min(|s|, n)] + Zeros(n - Min(|s|, n))
  }

  /** A byte string up to its first zero. */
  function CString(s: Bytes): Bytes {
    if s == [] || s[0] == 0 then [] else [s[0]] + CString(s[1..])
  }

  lemma {:induction false} CStringPadded(s: Bytes, n: nat)
    ensures CString(s + Zeros(n)) == CString(s)
  {
    if s != [] {
      assert (s + Zeros(n))[1..] == s[1..] + Zeros(n);
      CStringPadded(s[1..], n);
    }
  }

  lemma {:induction false} CStringKeeps(s: Bytes)
    ensures CString(s) == s <==> 0 !in s
  {
    if s != [] {
      CStringKeeps(s[1..]);
    }
  }

  lemma {:induction false} CStringLength(s: Bytes)
    ensures |CString(s)| <= |s|
  {
    if s != [] {
      CStringLength(s[1..]);
    }
  }

  /** A name of at most 255 bytes is listed up to its first zero byte. */
  lemma ShownName(name: Bytes)
    requires |name| <= 255
    ensures CString(PadTo(name, 255)) == CString(name)
  {
    PadToShort(name, 255);
    CStringPadded(name, 255 - |name|);
    hide *;
  }

  lemma PadToShort(s: Bytes, n: nat)
    requires |s| <= n
    ensures PadTo(s, n) == s + Zeros(n - |s|)
  {
    assert s[..|s|] == s;
  }

  /** A name survives the list response exactly when it has at most 255 bytes and none of them is zero. */
  lemma ListedNameKept(name: Bytes)
    ensures CString(PadTo(name, 255)) == name <==> |name| <= 255 && 0 !in name
  {
    CStringLength(PadTo(name, 255));
    if |name| <= 255 {
      ShownName(name);
      CStringKeeps(name);
    }
  }

  function EncodeClient(c: ClientEntry<Uuid>): (s: Bytes)
    ensures |s| == 271
  {
    c.id + PadTo(c.name, 255)
  }

  function EncodeClients(cs: seq<ClientEntry<Uuid>>): (s: Bytes)
    ensures |s| == 271 * |cs|
  {
    if cs == [] then [] else EncodeClients(cs[..|cs| - 1]) + EncodeClient(cs[|cs| - 1])
  }

  function ParseClient(p: Bytes): ClientEntry<HexId>
    requires |p| == 271
  {
    ClientEntry(Hex(p[..16]), CString(p[16..]))
  }

  function ParseClients(p: Bytes): (cs: seq<ClientEntry<HexId>>)
    requires |p| % 271 == 0
  {
    seq(|p| / 271, i requires 0 <= i < |p| / 271 => ParseClient(p[271 * i..271 * i + 271]))
  }

  function ListedClient(c: ClientEntry<Uuid>): ClientEntry<HexId> {
    ClientEntry(Hex(c.id), CString(PadTo(c.name, 255)))
  }

  function ListedClients(cs: seq<ClientEntry<Uuid>>): (ls: seq<ClientEntry<HexId>>)
    ensures |ls| == |cs|
    ensures forall i :: 0 <= i < |cs| ==> ls[i] == ListedClient(cs[i])
  {
    seq(|cs|, i requires 0 <= i < |cs| => ListedClient(cs[i]))
  }

  lemma {:induction false} EncodeClientsAt(cs: seq<ClientEntry<Uuid>>, i: nat)
    requires i < |cs|
    ensures EncodeClients(cs)[271 * i..271 * i + 271] == EncodeClient(cs[i])
  {
    var n := |cs| - 1;
    var init, last := EncodeClients(cs[..n]), EncodeClient(cs[n]);
    assert EncodeClients(cs) == init + last;
    if i < n {
      EncodeClientsAt(cs[..n], i);
      assert (init + last)[271 * i..271 * i + 271] == init[271 * i..271 * i + 271];
    } else {
      assert (init + last)[271 * n..271 * n + 271] == last;
    }
  }

  /** Parsing a packed client list gives back every entry, the name cut at its first zero byte. */
  lemma ParseEncodedClients(cs: seq<ClientEntry<Uuid>>)
    ensures ParseClients(EncodeClients(cs)) == ListedClients(cs)
  {
    var p := EncodeClients(cs);
    forall i | 0 <= i < |cs| ensures ParseClients(p)[i] == ListedClient(cs[i]) {
      EncodeClientsAt(cs, i);
      var e := EncodeClient(cs[i]);
      assert e[..16] == cs[i].id && e[16..] == PadTo(cs[i].name, 255);
    }
  }
}
