/** The registry's backing file: what `persist` writes, what `load` makes of any file, and why a restart
    changes no later answer. */
module RegistryStore {
  import opened Bytes
  import opened Kem
  import opened PeerRegistry

  const NANOS: int := 1_000_000_000

  datatype PeerRecord = PeerRecord(
    wgPubkeyB64: string, assignedIp: string, sessionIdHex: string, algo: string,
    createdEpoch: nat, lastActivityEpoch: nat, rekeys: U32)

  datatype RegistryFile = RegistryFile(schemaVersion: U32, peers: seq<PeerRecord>)

  /** The text encodings the records go through. */
  datatype Codecs = Codecs(
    b64Encode: seq<Byte> -> string, b64Decode: string -> Option<seq<Byte>>,
    hexEncode: seq<Byte> -> string, hexDecode: string -> Option<seq<Byte>>,
    ipToString: Bytes4 -> string, ipParse: string -> Option<Bytes4>,
    jsonRender: RegistryFile -> seq<Byte>, jsonParse: seq<Byte> -> Option<RegistryFile>)
  {
    /** Each decoder inverts its encoder: base64 and hex (sections 4 and 8 of RFC 4648), dotted quads, JSON. */
    ghost predicate Laws() {
      && (forall b: seq<Byte> :: b64Decode(b64Encode(b)) == Some(b))
      && (forall b: seq<Byte> :: hexDecode(hexEncode(b)) == Some(b))
      && (forall ip: Bytes4 :: ipParse(ipToString(ip)) == Some(ip))
      && (forall f: RegistryFile :: jsonParse(jsonRender(f)) == Some(f))
    }
  }

  /** Byte strings as the first 256 characters, and back. */
  function Widen(b: seq<Byte>): (s: string)
    ensures |s| == |b| && forall i :: 0 <= i < |b| ==> s[i] as int == b[i]
  {
    seq(|b|, i requires 0 <= i < |b| => b[i] as char)
  }

  function Narrow(s: string): (r: Option<seq<Byte>>)
    ensures (forall i :: 0 <= i < |s| ==> s[i] as int < 0x100) ==> r.Some? && |r.value| == |s| && Widen(r.value) == s
  {
    if forall i :: 0 <= i < |s| ==> s[i] as int < 0x100
    then Some(seq(|s|, i requires 0 <= i < |s| => s[i] as int))
    else None
  }

  lemma NarrowOfWiden(b: seq<Byte>)
    ensures Narrow(Widen(b)) == Some(b)
  {
    var r := Narrow(Widen(b)).value;
    forall i | 0 <= i < |b| ensures r[i] == b[i] {
      assert Widen(r)[i] == Widen(b)[i];
    }
    assert r == b;
  }

  function NarrowIp(s: string): Option<Bytes4> {
    match Narrow(s)
    case Some(b) => if |b| == 4 then Some(b) else None
    case None => None
  }

  /** The laws are consistent as soon as distinct registry files can be rendered as distinct texts. */
  lemma CodecsAreConsistent(render: RegistryFile -> seq<Byte>) returns (c: Codecs)
    requires forall f: RegistryFile, g: RegistryFile :: render(f) == render(g) ==> f == g
    ensures c.Laws() && c.jsonRender == render
  {
    c := Codecs(Widen, Narrow, Widen, Narrow, (ip: Bytes4) => Widen(ip), NarrowIp,
      render, (b: seq<Byte>) => if exists f :: render(f) == b then var f :| render(f) == b; Some(f) else None);
    forall b: seq<Byte> ensures Narrow(Widen(b)) == Some(b) {
      NarrowOfWiden(b);
    }
    forall ip: Bytes4 ensures NarrowIp(Widen(ip)) == Some(ip) {
      NarrowOfWiden(ip);
    }
  }

  /** Whole seconds since the epoch; 0 for a time before it. */
  function Epoch(t: int): (seconds: nat)
    ensures t >= 0 ==> seconds * NANOS <= t < (seconds + 1) * NANOS
    ensures t < 0 ==> seconds == 0
  {
    if t < 0 then 0 else t / NANOS
  }

  function FromPeer(c: Codecs, p: Peer): PeerRecord {
    PeerRecord(c.b64Encode(p.wgPubkey), c.ipToString(p.assignedIp), c.hexEncode(p.sessionId), p.algo.Name(),
      Epoch(p.created), Epoch(p.lastActivity), p.rekeys)
  }

  function IntoPeer(c: Codecs, r: PeerRecord): Option<Peer> {
    match c.b64Decode(r.wgPubkeyB64)
    case None => None
    case Some(key) =>
      if |key| != 32 then None
      else match c.hexDecode(r.sessionIdHex)
        case None => None
        case Some(sid) =>
          if |sid| != 16 then None
          else match c.ipParse(r.assignedIp)
            case None => None
            case Some(ip) =>
              match FromName(r.algo)
              case None => None
              case Some(algo) =>
                Some(Peer(key, ip, sid, algo, r.createdEpoch * NANOS, r.lastActivityEpoch * NANOS, r.rekeys))
  }

  /** The map `load` builds: bad records are skipped, a later record for a key replaces an earlier one. */
  function LoadPeers(c: Codecs, records: seq<PeerRecord>): Peers {
    if records == [] then map[]
    else
      var last := |records| - 1;
      var earlier := LoadPeers(c, records[..last]);
      match IntoPeer(c, records[last])
      case Some(p) => earlier[p.wgPubkey := p]
      case None => earlier
  }

  /** Reading the backing file. */
  datatype FileRead = Contents(bytes: seq<Byte>) | NotFound | Failed

  datatype LoadError = InvalidData | Io

  method Load(c: Codecs, file: FileRead, subnetBase: Bytes4, maxPeers: nat) returns (r: Result<Registry, LoadError>)
    ensures r.Err? <==> file.Failed? || (file.Contents? && c.jsonParse(file.bytes).None?)
    ensures r == Err(InvalidData) <==> file.Contents? && c.jsonParse(file.bytes).None?
    ensures r.Ok? ==> fresh(r.value) && r.value.Valid()
    ensures r.Ok? ==> r.value.settings == Clamped(subnetBase, maxPeers)
    ensures r.Ok? && file.Contents? ==> r.value.peers == LoadPeers(c, c.jsonParse(file.bytes).value.peers)
    ensures r.Ok? && file.NotFound? ==> r.value.peers == map[]
  {
    var peers: Peers := map[];
    match file {
      case Failed => return Err(Io);
      case NotFound =>
      case Contents(bytes) =>
        var parsed := c.jsonParse(bytes);
        if parsed.None? {
          return Err(InvalidData);
        }
        var records := parsed.value.peers;
        var i := 0;
        while i < |records|
          invariant 0 <= i <= |records|
          invariant peers == LoadPeers(c, records[..i])
        {
          assert records[..i + 1][..i] == records[..i];
          match IntoPeer(c, records[i]) {
            case Some(p) => peers := peers[p.wgPubkey := p];
            case None =>
          }
          i := i + 1;
        }
        assert records[..i] == records;
    }
    var registry := new Registry(subnetBase, maxPeers, peers);
    return Ok(registry);
  }

  /** `order` lists the keys of `peers`, each once: one iteration order of the hash map. */
  ghost predicate Enumerates(order: seq<Bytes32>, peers: Peers) {
    && (forall k :: k in order <==> k in peers)
    && (forall i, j :: 0 <= i < j < |order| ==> order[i] != order[j])
  }

  function Records(c: Codecs, peers: Peers, order: seq<Bytes32>): (r: seq<PeerRecord>)
    requires forall k :: k in order ==> k in peers
    ensures |r| == |order| && forall i :: 0 <= i < |order| ==> r[i] == FromPeer(c, peers[order[i]])
  {
    seq(|order|, i requires 0 <= i < |order| => FromPeer(c, peers[order[i]]))
  }

  /** The registry file and the temporary file beside it. */
  class Directory {
    var file: Option<seq<Byte>>
    var temp: Option<seq<Byte>>

    constructor (file: Option<seq<Byte>>)
      ensures this.file == file && temp == None
    {
      this.file, temp := file, None;
    }
  }

  /** What the file system does: whether the temporary file can be written, what a failed write leaves of it, and
      whether it can be renamed. */
  datatype Disk = Disk(writes: bool, leftover: Option<seq<Byte>>, renames: bool)

  /** `persist`; `dir` is None for an in-memory registry. Whatever fails, the registry file is as it was or holds the
      whole registry. */
  method Persist(c: Codecs, registry: Registry, dir: Option<Directory>, disk: Disk) returns (ok: bool)
    modifies if dir.Some? then {dir.value} else {}
    ensures ok <==> dir.None? || (disk.writes && disk.renames)
    ensures dir.Some? && !ok ==> dir.value.file == old(dir.value.file)
    ensures dir.Some? && ok ==> dir.value.temp == None && dir.value.file.Some? && Renders(c, registry.peers, dir.value.file.value)
  {
    if dir.None? {
      return true;
    }
    var json := Render(c, registry);
    var d := dir.value;
    if !disk.writes {
      d.temp := disk.leftover;
      return false;
    }
    d.temp := Some(json);
    if !disk.renames {
      return false;
    }
    d.file, d.temp := d.temp, None;
    return true;
  }

  /** `json` holds every peer, each once, in some order. */
  ghost predicate Renders(c: Codecs, peers: Peers, json: seq<Byte>) {
    exists order: seq<Bytes32> ::
      Enumerates(order, peers) && json == c.jsonRender(RegistryFile(1, Records(c, peers, order)))
  }

  /** The records in the map's iteration order, which is the map's business, as JSON. */
  method Render(c: Codecs, registry: Registry) returns (json: seq<Byte>)
    ensures Renders(c, registry.peers, json)
  {
    var peers := registry.peers;
    var todo := peers.Keys;
    var records := [];
    ghost var order: seq<Bytes32> := [];
    while todo != {}
      invariant todo <= peers.Keys
      invariant forall k :: k in order <==> k in peers && k !in todo
      invariant forall i, j :: 0 <= i < j < |order| ==> order[i] != order[j]
      invariant records == Records(c, peers, order)
      decreases todo
    {
      var k :| k in todo;
      todo := todo - {k};
      order := order + [k];
      records := records + [FromPeer(c, peers[k])];
    }
    json := c.jsonRender(RegistryFile(1, records));
    assert Enumerates(order, peers);
  }

  // ---- restart ----------------------------------------------------------------------------

  /** A peer as it comes back: timestamps cut to whole seconds. */
  function Restored(p: Peer): Peer {
    p.(created := Epoch(p.created) * NANOS, lastActivity := Epoch(p.lastActivity) * NANOS)
  }

  function RestoredPeers(peers: Peers): Peers {
    map k | k in peers :: Restored(peers[k])
  }

  /** `cut` is `t` without its fraction of a second, or 1970 for an earlier time. */
  predicate CutToSeconds(t: int, cut: int) {
    cut % 1_000_000_000 == 0 && if t < 0 then cut == 0 else cut <= t < cut + 1_000_000_000
  }

  lemma RecordRoundTrip(c: Codecs, p: Peer)
    requires c.Laws()
    ensures IntoPeer(c, FromPeer(c, p)) == Some(Restored(p))
    ensures CutToSeconds(p.created, Restored(p).created) && CutToSeconds(p.lastActivity, Restored(p).lastActivity)
  {
    assert FromName(p.algo.Name()) == Some(p.algo);
  }

  function RestoredOnly(peers: Peers, keys: seq<Bytes32>): Peers {
    map k | k in peers && k in keys :: Restored(peers[k])
  }

  lemma RestoredSnoc(peers: Peers, keys: seq<Bytes32>, k: Bytes32)
    requires k in peers
    ensures RestoredOnly(peers, keys + [k]) == RestoredOnly(peers, keys)[k := Restored(peers[k])]
  {
  }

  lemma LoadSnoc(c: Codecs, records: seq<PeerRecord>, p: Peer)
    requires c.Laws()
    ensures LoadPeers(c, records + [FromPeer(c, p)]) == LoadPeers(c, records)[p.wgPubkey := Restored(p)]
  {
    RecordRoundTrip(c, p);
    assert (records + [FromPeer(c, p)])[..|records|] == records;
  }

  lemma RecordsSnoc(c: Codecs, peers: Peers, order: seq<Bytes32>, k: Bytes32)
    requires k in peers && forall j :: j in order ==> j in peers
    ensures Records(c, peers, order + [k]) == Records(c, peers, order) + [FromPeer(c, peers[k])]
  {
  }

  lemma {:induction false} LoadOfRecords(c: Codecs, peers: Peers, order: seq<Bytes32>)
    requires c.Laws() && Keyed(peers) && forall k :: k in order ==> k in peers
    ensures LoadPeers(c, Records(c, peers, order)) == RestoredOnly(peers, order)
  {
    if order != [] {
      var before, k := order[..|order| - 1], order[|order| - 1];
      LoadOfRecords(c, peers, before);
      LoadSnoc(c, Records(c, peers, before), peers[k]);
      RestoredSnoc(peers, before, k);
      RecordsSnoc(c, peers, before, k);
      assert order == before + [k];
    }
  }

  /** Persist then load gives back every peer, for any iteration order, with its times cut to seconds. */
  lemma PersistThenLoad(c: Codecs, peers: Peers, order: seq<Bytes32>)
    requires c.Laws() && Keyed(peers) && Enumerates(order, peers)
    ensures var json := c.jsonRender(RegistryFile(1, Records(c, peers, order)));
      && c.jsonParse(json).Some?
      && LoadPeers(c, c.jsonParse(json).value.peers) == RestoredPeers(peers)
  {
    LoadOfRecords(c, peers, order);
  }

  /** So does any file `persist` writes; it is of schema version 1 and has every key once. */
  lemma RenderedLoads(c: Codecs, peers: Peers, json: seq<Byte>)
    requires c.Laws() && Keyed(peers) && Renders(c, peers, json)
    ensures c.jsonParse(json).Some?
    ensures var file := c.jsonParse(json).value;
      && file.schemaVersion == 1 && LoadPeers(c, file.peers) == RestoredPeers(peers)
      && forall i, j :: 0 <= i < j < |file.peers| ==> file.peers[i].wgPubkeyB64 != file.peers[j].wgPubkeyB64
  {
    var order :| Enumerates(order, peers) && json == c.jsonRender(RegistryFile(1, Records(c, peers, order)));
    PersistThenLoad(c, peers, order);
    var records := Records(c, peers, order);
    forall i, j | 0 <= i < j < |records| ensures records[i].wgPubkeyB64 != records[j].wgPubkeyB64 {
      assert order[i] in peers && order[j] in peers;
      assert c.b64Decode(c.b64Encode(order[i])) == Some(order[i]) && c.b64Decode(c.b64Encode(order[j])) == Some(order[j]);
    }
  }

  /** Whatever is in the file, what `load` builds is filed under its own keys. */
  lemma {:induction false} LoadIsKeyed(c: Codecs, records: seq<PeerRecord>)
    ensures Keyed(LoadPeers(c, records))
  {
    if records != [] {
      LoadIsKeyed(c, records[..|records| - 1]);
    }
  }

  /** Two registries that differ in nothing but timestamps. */
  ghost predicate SameButTimes(a: Peers, b: Peers) {
    a.Keys == b.Keys && forall k :: k in a ==> SamePeerButTimes(a[k], b[k])
  }

  predicate SamePeerButTimes(a: Peer, b: Peer) {
    a.(created := 0, lastActivity := 0) == b.(created := 0, lastActivity := 0)
  }

  function Answers(s: Settings, peers: Peers, ops: seq<Op>): seq<Option<Answer>>
    decreases |ops|
  {
    if ops == [] then []
    else [Apply(s, peers, ops[0]).1] + Answers(s, Apply(s, peers, ops[0]).0, ops[1..])
  }

  /** A record is readable exactly when each of its four texts is; what is read has their values. */
  lemma RecordReads(c: Codecs, r: PeerRecord)
    ensures var key, sid, ip, algo := c.b64Decode(r.wgPubkeyB64), c.hexDecode(r.sessionIdHex), c.ipParse(r.assignedIp), FromName(r.algo);
      && (IntoPeer(c, r).Some? <==> key.Some? && |key.value| == 32 && sid.Some? && |sid.value| == 16 && ip.Some? && algo.Some?)
      && (IntoPeer(c, r).Some? ==>
            var p := IntoPeer(c, r).value;
            && p.wgPubkey == key.value && p.sessionId == sid.value && p.assignedIp == ip.value && p.algo == algo.value
            && p.created == r.createdEpoch * 1_000_000_000 && p.lastActivity == r.lastActivityEpoch * 1_000_000_000
            && p.rekeys == r.rekeys)
  {
  }

  /** The record is readable, and is one of `key`. */
  predicate ReadsAs(c: Codecs, r: PeerRecord, key: Bytes32) {
    IntoPeer(c, r).Some? && IntoPeer(c, r).value.wgPubkey == key
  }

  /** Record `i` is the last readable one of `key`. */
  predicate LastOf(c: Codecs, records: seq<PeerRecord>, i: nat, key: Bytes32) {
    i < |records| && ReadsAs(c, records[i], key) && forall j :: i < j < |records| ==> !ReadsAs(c, records[j], key)
  }

  lemma LastSnoc(c: Codecs, records: seq<PeerRecord>, i: nat, key: Bytes32)
    requires records != []
    ensures var last := |records| - 1;
      LastOf(c, records, i, key) <==> if ReadsAs(c, records[last], key) then i == last else LastOf(c, records[..last], i, key)
  {
    var last := |records| - 1;
    var earlier := records[..last];
    if LastOf(c, earlier, i, key) && !ReadsAs(c, records[last], key) {
      forall j | i < j < |records| ensures !ReadsAs(c, records[j], key) {
        assert j < last ==> !ReadsAs(c, earlier[j], key);
      }
    }
  }

  /** What `load` makes of any list of records: a key has an entry exactly when some record of it is readable, and the
      entry is the last such record; unreadable records count for nothing. */
  lemma {:induction false} LoadExactly(c: Codecs, records: seq<PeerRecord>, key: Bytes32)
    ensures key in LoadPeers(c, records) <==> exists i: nat :: LastOf(c, records, i, key)
    ensures forall i: nat :: LastOf(c, records, i, key) ==>
      key in LoadPeers(c, records) && IntoPeer(c, records[i]) == Some(LoadPeers(c, records)[key])
  {
    if records != [] {
      var last := |records| - 1;
      LoadExactly(c, records[..last], key);
      forall i: nat
        ensures LastOf(c, records, i, key)
          <==> if ReadsAs(c, records[last], key) then i == last else LastOf(c, records[..last], i, key)
      {
        LastSnoc(c, records, i, key);
      }
      if ReadsAs(c, records[last], key) {
        assert LastOf(c, records, last, key);
      } else if key in LoadPeers(c, records) {
        var i: nat :| LastOf(c, records[..last], i, key);
        assert LastOf(c, records, i, key);
      }
    }
  }

  lemma TakenIgnoresTimes(a: Peers, b: Peers)
    requires SameButTimes(a, b)
    ensures TakenHosts(a) == TakenHosts(b) && |a| == |b|
  {
    assert |a| == |a.Keys| == |b.Keys| == |b|;
    forall h | h in TakenHosts(a) ensures h in TakenHosts(b) {
      var k :| k in a && Host(a[k]) == h;
      assert SamePeerButTimes(a[k], b[k]);
      assert Host(b[k]) == h;
    }
    forall h | h in TakenHosts(b) ensures h in TakenHosts(a) {
      var k :| k in b && Host(b[k]) == h;
      assert SamePeerButTimes(a[k], b[k]);
      assert Host(a[k]) == h;
    }
  }

  lemma StepIgnoresTimes(s: Settings, a: Peers, b: Peers, op: Op)
    requires SameButTimes(a, b)
    ensures Apply(s, a, op).1 == Apply(s, b, op).1
    ensures SameButTimes(Apply(s, a, op).0, Apply(s, b, op).0)
  {
    TakenIgnoresTimes(a, b);
    if op.key in a {
      assert SamePeerButTimes(a[op.key], b[op.key]);
    }
  }

  lemma {:induction false} AnswersIgnoreTimes(s: Settings, a: Peers, b: Peers, ops: seq<Op>)
    requires SameButTimes(a, b)
    ensures Answers(s, a, ops) == Answers(s, b, ops)
    ensures SameButTimes(Run(s, a, ops), Run(s, b, ops))
    decreases |ops|
  {
    if ops != [] {
      StepIgnoresTimes(s, a, b, ops[0]);
      AnswersIgnoreTimes(s, Apply(s, a, ops[0]).0, Apply(s, b, ops[0]).0, ops[1..]);
    }
  }

  lemma RestoredDiffersInTimes(peers: Peers)
    ensures SameButTimes(RestoredPeers(peers), peers)
  {
    assert RestoredPeers(peers).Keys == peers.Keys;
  }

  /** A restart is invisible: after persist and load, every later sequence of hellos, rekeys, evictions and
      refreshes gets the answers it would have got without the restart. */
  lemma RestartIsInvisible(c: Codecs, s: Settings, peers: Peers, order: seq<Bytes32>, ops: seq<Op>)
    requires c.Laws() && Keyed(peers) && Enumerates(order, peers)
    ensures var json := c.jsonRender(RegistryFile(1, Records(c, peers, order)));
      && c.jsonParse(json).Some?
      && Answers(s, LoadPeers(c, c.jsonParse(json).value.peers), ops) == Answers(s, peers, ops)
  {
    PersistThenLoad(c, peers, order);
    RestoredDiffersInTimes(peers);
    AnswersIgnoreTimes(s, RestoredPeers(peers), peers, ops);
  }
}
