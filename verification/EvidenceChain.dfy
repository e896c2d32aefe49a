/**
 * Hash-linked evidence chains: the hashed entry, appending, verification, and what an
 * accepted chain proves. SHA-256 is a parameter, never assumed injective.
 */
module EvidenceChains {
  import opened Utf16
  import opened Wrappers
  import opened Entries
  import opened EcmaNumber
  import opened CanonicalJson
  import opened CanonicalJsonProofs
  import opened JsonGrammar
  import opened ObjectGraph

  /** SHA-256 of the UTF-8 bytes of a text, as a hex text. */
  type Hash = Text -> Text

  /** What a payload's object graph denotes: a tree, or the error its serialization throws. */
  type Payload = p: Result<Json, SerialError> | p.Ok? ==> WellKeyed(p.value) witness Ok(Null)

  // ---------------------------------------------------------------------- hashing

  datatype ChainEntry = ChainEntry(
    sequence: Number,
    previousHash: Option<Text>,
    payloadHash: Text,
    operationType: Text,
    timestamp: Option<Text>)

  function NullOr(t: Option<Text>): Json {
    match t
    case None => Null
    case Some(s) => Str(s)
  }

  /** The object that is hashed; the timestamp key is present only when a timestamp is given. */
  function EntryJson(e: ChainEntry): Json {
    Obj([Entry(Lit("sequence"), Num(e.sequence)),
         Entry(Lit("previousHash"), NullOr(e.previousHash)),
         Entry(Lit("payloadHash"), Str(e.payloadHash)),
         Entry(Lit("operationType"), Str(e.operationType))]
        + match e.timestamp
          case None => []
          case Some(t) => [Entry(Lit("timestamp"), Str(t))])
  }

  function HashCanonicalJson(sha: Hash, v: Json): Text {
    sha(Print(v))
  }

  function HashChainEntry(sha: Hash, e: ChainEntry): Text {
    HashCanonicalJson(sha, EntryJson(e))
  }

  lemma EntryKeys(e: ChainEntry)
    ensures WellKeyed(EntryJson(e))
  {
    assert |Lit("sequence")| == 8 && |Lit("previousHash")| == 12 && |Lit("payloadHash")| == 11;
    assert |Lit("operationType")| == 13 && |Lit("timestamp")| == 9;
  }

  function NullOrText(t: Option<Text>): Text {
    match t
    case None => Lit("null")
    case Some(s) => Quote(s)
  }

  /** The text that is hashed for an entry, its names in order. */
  function ChainEntryText(e: ChainEntry): Text {
    Braced([Member("operationType", Quote(e.operationType)), Member("payloadHash", Quote(e.payloadHash)),
            Member("previousHash", NullOrText(e.previousHash)), Member("sequence", Format(e.sequence))]
           + if e.timestamp.Some? then [Member("timestamp", Quote(e.timestamp.value))] else [])
  }

  lemma EntrySorted(e: ChainEntry)
    ensures Less(Lit("operationType"), Lit("payloadHash")) && Less(Lit("payloadHash"), Lit("previousHash"))
    ensures Less(Lit("previousHash"), Lit("sequence")) && Less(Lit("sequence"), Lit("timestamp"))
    ensures PlainName("operationType") && PlainName("payloadHash") && PlainName("previousHash")
    ensures PlainName("sequence") && PlainName("timestamp")
  {
    NamesOrdered("operationType", "payloadHash", 0);
    NamesOrdered("payloadHash", "previousHash", 1);
    NamesOrdered("previousHash", "sequence", 0);
    NamesOrdered("sequence", "timestamp", 0);
  }

  /** What is hashed for an entry is just that text. */
  lemma EntryPrinted(e: ChainEntry)
    ensures Print(EntryJson(e)) == ChainEntryText(e)
  {
    hide Less, PlainName, Lit, Print, Member, Braced;
    EntryKeys(e);
    EntrySorted(e);
    var values := [Str(e.operationType), Str(e.payloadHash), NullOr(e.previousHash), Num(e.sequence)];
    var names := ["operationType", "payloadHash", "previousHash", "sequence"];
    var fs := [Entry(Lit("operationType"), Str(e.operationType)), Entry(Lit("payloadHash"), Str(e.payloadHash)),
               Entry(Lit("previousHash"), NullOr(e.previousHash)), Entry(Lit("sequence"), Num(e.sequence))];
    if e.timestamp.Some? {
      var t := Entry(Lit("timestamp"), Str(e.timestamp.value));
      NeighboursAscend(fs + [t]);
      ObjectText(EntryJson(e).fields, fs + [t], names + ["timestamp"]);
      assert Values(fs + [t]) == values + [Str(e.timestamp.value)];
    } else {
      NeighboursAscend(fs);
      ObjectText(EntryJson(e).fields, fs, names);
      assert Values(fs) == values;
    }
    EntryMembers(e);
  }

  lemma EntryMembers(e: ChainEntry)
    ensures var names, values := ["operationType", "payloadHash", "previousHash", "sequence"],
                                 [Str(e.operationType), Str(e.payloadHash), NullOr(e.previousHash), Num(e.sequence)];
      if e.timestamp.Some? then Braced(MemberTexts(names + ["timestamp"], values + [Str(e.timestamp.value)])) == ChainEntryText(e)
      else Braced(MemberTexts(names, values)) == ChainEntryText(e)
  {
    hide Braced, Member, Quote, Format;
    var names, values := ["operationType", "payloadHash", "previousHash", "sequence"],
                         [Str(e.operationType), Str(e.payloadHash), NullOr(e.previousHash), Num(e.sequence)];
    var members := [Member("operationType", Quote(e.operationType)), Member("payloadHash", Quote(e.payloadHash)),
                    Member("previousHash", NullOrText(e.previousHash)), Member("sequence", Format(e.sequence))];
    assert MemberTexts(names, values) == members;
    if e.timestamp.Some? {
      assert MemberTexts(names + ["timestamp"], values + [Str(e.timestamp.value)])
          == members + [Member("timestamp", Quote(e.timestamp.value))];
    } else {
      assert members + [] == members;
    }
  }

  /** The hashed text determines every part of the entry, the absence of a timestamp included. */
  lemma EntryTextDetermines(a: ChainEntry, b: ChainEntry)
    requires Print(EntryJson(a)) == Print(EntryJson(b))
    ensures a == b
  {
    EntryKeys(a);
    EntryKeys(b);
    PrintDistinguishes(EntryJson(a), EntryJson(b));
    if a.timestamp.Some? {
      TimestampKey(a, b);
    } else if b.timestamp.Some? {
      TimestampKey(b, a);
    }
    EntryFields(a, b);
  }

  lemma EntryFields(a: ChainEntry, b: ChainEntry)
    requires SameValue(EntryJson(a), EntryJson(b)) && (a.timestamp.Some? <==> b.timestamp.Some?)
    ensures a == b
  {
    var fs, gs := EntryJson(a).fields, EntryJson(b).fields;
    forall i | 0 <= i < |fs| ensures fs[i].key == gs[i].key && SameValue(fs[i].val, gs[i].val) {
    }
    assert fs[0].val == gs[0].val && fs[1].val == gs[1].val && fs[2].val == gs[2].val && fs[3].val == gs[3].val;
    assert a.timestamp.Some? ==> fs[4].val == gs[4].val;
  }

  lemma TimestampKey(a: ChainEntry, b: ChainEntry)
    requires a.timestamp.Some? && Keys(EntryJson(a).fields) == Keys(EntryJson(b).fields)
    ensures b.timestamp.Some?
  {
    var fs, gs := EntryJson(a).fields, EntryJson(b).fields;
    assert fs[4].key in Keys(fs);
    var j :| 0 <= j < |gs| && gs[j].key == Lit("timestamp");
    assert |gs[j].key| == 9;
  }

  // ---------------------------------------------------------------------- records

  datatype EvidenceRecord = EvidenceRecord(
    id: Text,
    correlationId: Text,
    timestamp: Text,
    tenantId: Text,
    auditHash: Text,
    operationType: Text,
    payload: Payload,
    sequence: Number,
    previousHash: Option<Text>)

  function EntryOf(sha: Hash, r: EvidenceRecord): ChainEntry
    requires r.payload.Ok?
  {
    ChainEntry(r.sequence, r.previousHash, HashCanonicalJson(sha, r.payload.value), r.operationType, Some(r.timestamp))
  }

  function ExpectedHash(sha: Hash, r: EvidenceRecord): Text
    requires r.payload.Ok?
  {
    HashChainEntry(sha, EntryOf(sha, r))
  }

  /** The hash record i must name as its predecessor. */
  function PreviousOf(records: seq<EvidenceRecord>, i: nat): Option<Text>
    requires i <= |records|
  {
    if i == 0 then None else Some(records[i - 1].auditHash)
  }

  predicate LinkedAt(records: seq<EvidenceRecord>, i: nat)
    requires i < |records|
  {
    records[i].previousHash == PreviousOf(records, i)
  }

  predicate GoodAt(sha: Hash, records: seq<EvidenceRecord>, i: nat)
    requires i < |records|
  {
    && LinkedAt(records, i)
    && records[i].payload.Ok?
    && records[i].auditHash == ExpectedHash(sha, records[i])
  }

  ghost predicate Linked(sha: Hash, records: seq<EvidenceRecord>) {
    forall i :: 0 <= i < |records| ==> GoodAt(sha, records, i)
  }

  lemma LinkedPrefix(sha: Hash, records: seq<EvidenceRecord>, n: nat)
    requires Linked(sha, records) && n <= |records|
    ensures Linked(sha, records[..n])
  {
    forall i | 0 <= i < n ensures GoodAt(sha, records[..n], i) {
      assert GoodAt(sha, records, i);
    }
  }

  /** The record the writers append after `records`. */
  function NextRecord(sha: Hash, records: seq<EvidenceRecord>, id: Text, correlationId: Text, tenantId: Text,
                      timestamp: Text, operationType: Text, payload: Payload): EvidenceRecord
    requires payload.Ok?
  {
    var previousHash := PreviousOf(records, |records|);
    var sequence := NatNumber(|records|);
    var e := ChainEntry(sequence, previousHash, HashCanonicalJson(sha, payload.value), operationType, Some(timestamp));
    EvidenceRecord(id, correlationId, timestamp, tenantId, HashChainEntry(sha, e), operationType, payload, sequence, previousHash)
  }

  /** The digest of the text that is hashed for a record with these parts. */
  function Digest(sha: Hash, sequence: Number, previousHash: Option<Text>, payload: Json, operationType: Text, timestamp: Text): Text {
    sha(ChainEntryText(ChainEntry(sequence := sequence, previousHash := previousHash, payloadHash := sha(Print(payload)),
                                  operationType := operationType, timestamp := Some(timestamp))))
  }

  /** Every record names the hash of the one before it and carries the digest of its own parts. */
  ghost predicate Accepted(sha: Hash, records: seq<EvidenceRecord>) {
    forall i :: 0 <= i < |records| ==> AcceptedAt(sha, records, i)
  }

  predicate AcceptedAt(sha: Hash, records: seq<EvidenceRecord>, i: nat)
    requires i < |records|
  {
    && records[i].previousHash == (if i == 0 then None else Some(records[i - 1].auditHash))
    && records[i].payload.Ok?
    && records[i].auditHash == Digest(sha, records[i].sequence, records[i].previousHash, records[i].payload.value,
                                      records[i].operationType, records[i].timestamp)
  }

  lemma LinkedAccepted(sha: Hash, records: seq<EvidenceRecord>)
    ensures Linked(sha, records) <==> Accepted(sha, records)
  {
    forall i | 0 <= i < |records| ensures GoodAt(sha, records, i) <==> AcceptedAt(sha, records, i) {
      if records[i].payload.Ok? {
        EntryPrinted(EntryOf(sha, records[i]));
      }
    }
  }

  /** r is the record that comes after `before` for a step of that type and payload, in every part. */
  ghost predicate Continues(sha: Hash, before: seq<EvidenceRecord>, r: EvidenceRecord, id: Text, correlationId: Text,
                          tenantId: Text, timestamp: Text, operationType: Text, payload: Json) {
    && r.id == id && r.correlationId == correlationId && r.tenantId == tenantId && r.timestamp == timestamp
    && r.operationType == operationType && r.payload == Ok(payload) && r.sequence == NatNumber(|before|)
    && r.previousHash == (if before == [] then None else Some(before[|before| - 1].auditHash))
    && r.auditHash == Digest(sha, r.sequence, r.previousHash, payload, operationType, timestamp)
  }

  lemma NextContinues(sha: Hash, before: seq<EvidenceRecord>, id: Text, correlationId: Text, tenantId: Text,
                    timestamp: Text, operationType: Text, payload: Payload)
    requires payload.Ok?
    ensures Continues(sha, before, NextRecord(sha, before, id, correlationId, tenantId, timestamp, operationType, payload),
                    id, correlationId, tenantId, timestamp, operationType, payload.value)
  {
    var r := NextRecord(sha, before, id, correlationId, tenantId, timestamp, operationType, payload);
    EntryPrinted(EntryOf(sha, r));
  }

  lemma LinkedSnoc(sha: Hash, records: seq<EvidenceRecord>, r: EvidenceRecord)
    requires Linked(sha, records) && r.payload.Ok?
    requires r.previousHash == PreviousOf(records, |records|) && r.auditHash == ExpectedHash(sha, r)
    ensures Linked(sha, records + [r])
  {
    var rs := records + [r];
    forall i | 0 <= i < |rs| ensures GoodAt(sha, rs, i) {
      if i < |records| {
        assert GoodAt(sha, records, i);
      }
    }
  }

  // ---------------------------------------------------------------------- verification

  datatype ChainError = ChainNotFound | IncorrectPreviousHash(at: nat) | HashMismatch(at: nat)

  datatype Verification = Verification(
    valid: bool,
    recordCount: nat,
    brokenAt: Option<nat>,
    brokenRecordId: Option<Text>,
    expectedHash: Option<Text>,
    actualHash: Option<Text>,
    error: Option<ChainError>)

  /** Record i is the least bad one and v says so, with the hashes that disagree. */
  ghost predicate ReportsFirstBad(sha: Hash, records: seq<EvidenceRecord>, i: nat, v: Verification) {
    && i < |records|
    && (forall k :: 0 <= k < i ==> GoodAt(sha, records, k))
    && (if !LinkedAt(records, i) then
          v == Verification(false, |records|, Some(i), Some(records[i].id), PreviousOf(records, i),
                            records[i].previousHash, Some(IncorrectPreviousHash(i)))
        else
          && records[i].payload.Ok?
          && records[i].auditHash != ExpectedHash(sha, records[i])
          && v == Verification(false, |records|, Some(i), Some(records[i].id), Some(ExpectedHash(sha, records[i])),
                               Some(records[i].auditHash), Some(HashMismatch(i))))
  }

  /** Record i is the least bad one: correctly linked, but its payload cannot be serialized. */
  ghost predicate ThrowsAt(sha: Hash, records: seq<EvidenceRecord>, i: nat, e: SerialError) {
    && i < |records|
    && LinkedAt(records, i)
    && records[i].payload == Err(e)
    && forall k :: 0 <= k < i ==> GoodAt(sha, records, k)
  }

  /** Accepts exactly the linked chains; otherwise names the least bad record, or throws on it. */
  method VerifyChain(sha: Hash, records: seq<EvidenceRecord>) returns (r: Result<Verification, SerialError>)
    ensures r.Ok? && r.value.valid <==> Linked(sha, records)
    ensures r.Ok? && r.value.valid <==> Accepted(sha, records)
    ensures r.Ok? && r.value.valid ==> r.value == Verification(true, |records|, None, None, None, None, None)
    ensures r.Ok? && !r.value.valid ==>
      r.value.brokenAt.Some? && ReportsFirstBad(sha, records, r.value.brokenAt.value, r.value)
    ensures r.Err? ==> exists i :: ThrowsAt(sha, records, i, r.error)
  {
    hide Accepted, ChainEntryText, EntryJson;
    LinkedAccepted(sha, records);
    var expectedPreviousHash: Option<Text> := None;
    var i := 0;
    while i < |records|
      invariant 0 <= i <= |records|
      invariant expectedPreviousHash == PreviousOf(records, i)
      invariant forall k :: 0 <= k < i ==> GoodAt(sha, records, k)
    {
      var record := records[i];
      if record.previousHash != expectedPreviousHash {
        r := Ok(Verification(false, |records|, Some(i), Some(record.id), expectedPreviousHash, record.previousHash,
                             Some(IncorrectPreviousHash(i))));
        assert !GoodAt(sha, records, i);
        return;
      }
      if record.payload.Err? {
        r := Err(record.payload.error);
        assert ThrowsAt(sha, records, i, r.error);
        assert !GoodAt(sha, records, i);
        return;
      }
      var payloadHash := HashCanonicalJson(sha, record.payload.value);
      var expectedAuditHash := HashChainEntry(sha,
        ChainEntry(record.sequence, record.previousHash, payloadHash, record.operationType, Some(record.timestamp)));
      if record.auditHash != expectedAuditHash {
        r := Ok(Verification(false, |records|, Some(i), Some(record.id), Some(expectedAuditHash), Some(record.auditHash),
                             Some(HashMismatch(i))));
        assert !GoodAt(sha, records, i);
        return;
      }
      expectedPreviousHash := Some(record.auditHash);
      i := i + 1;
    }
    r := Ok(Verification(true, |records|, None, None, None, None, None));
  }

  // ---------------------------------------------------------------------- tamper evidence

  /** Equal in everything the chain hashes, the payload up to the order of its keys. */
  predicate SameEvidence(a: EvidenceRecord, b: EvidenceRecord) {
    && a.sequence == b.sequence
    && a.previousHash == b.previousHash
    && a.auditHash == b.auditHash
    && a.operationType == b.operationType
    && a.timestamp == b.timestamp
    && a.payload.Ok? && b.payload.Ok? && SameValue(a.payload.value, b.payload.value)
  }

  /** The texts hashed for one record: its payload and its entry. */
  function HashedTexts(sha: Hash, r: EvidenceRecord): set<Text>
    requires r.payload.Ok?
  {
    {Print(r.payload.value), Print(EntryJson(EntryOf(sha, r)))}
  }

  datatype Comparison = Same | Collision(x: Text, y: Text)

  /** Two different texts, one hashed by each chain, with the same digest. */
  ghost predicate IsCollision(sha: Hash, a: seq<EvidenceRecord>, b: seq<EvidenceRecord>, c: Comparison) {
    && c.Collision?
    && c.x != c.y
    && sha(c.x) == sha(c.y)
    && (exists i :: 0 <= i < |a| && a[i].payload.Ok? && c.x in HashedTexts(sha, a[i]))
    && (exists j :: 0 <= j < |b| && b[j].payload.Ok? && c.y in HashedTexts(sha, b[j]))
  }

  /** One pair of records with the same audit hash. */
  lemma CompareRecords(sha: Hash, a: EvidenceRecord, b: EvidenceRecord) returns (c: Comparison)
    requires a.payload.Ok? && b.payload.Ok?
    requires a.auditHash == ExpectedHash(sha, a) && b.auditHash == ExpectedHash(sha, b)
    requires a.auditHash == b.auditHash
    ensures c == Same ==> SameEvidence(a, b)
    ensures c != Same ==> c.x != c.y && sha(c.x) == sha(c.y) && c.x in HashedTexts(sha, a) && c.y in HashedTexts(sha, b)
  {
    var ea, eb := Print(EntryJson(EntryOf(sha, a))), Print(EntryJson(EntryOf(sha, b)));
    var pa, pb := Print(a.payload.value), Print(b.payload.value);
    if ea != eb {
      c := Collision(ea, eb);
    } else {
      EntryTextDetermines(EntryOf(sha, a), EntryOf(sha, b));
      if pa != pb {
        c := Collision(pa, pb);
      } else {
        PrintDistinguishes(a.payload.value, b.payload.value);
        c := Same;
      }
    }
  }

  lemma CollisionOfPrefixes(sha: Hash, a: seq<EvidenceRecord>, b: seq<EvidenceRecord>, m: nat, n: nat, c: Comparison)
    requires m <= |a| && n <= |b| && IsCollision(sha, a[..m], b[..n], c)
    ensures IsCollision(sha, a, b, c)
  {
    var i :| 0 <= i < m && a[..m][i].payload.Ok? && c.x in HashedTexts(sha, a[..m][i]);
    var j :| 0 <= j < n && b[..n][j].payload.Ok? && c.y in HashedTexts(sha, b[..n][j]);
    assert a[i] == a[..m][i];
    assert b[j] == b[..n][j];
  }

  ghost predicate SameChain(a: seq<EvidenceRecord>, b: seq<EvidenceRecord>) {
    |a| == |b| && forall i :: 0 <= i < |a| ==> SameEvidence(a[i], b[i])
  }

  lemma SameChainSnoc(a: seq<EvidenceRecord>, b: seq<EvidenceRecord>)
    requires a != [] && b != [] && SameEvidence(a[|a| - 1], b[|b| - 1])
    requires SameChain(a[..|a| - 1], b[..|b| - 1])
    ensures SameChain(a, b)
  {
    var m := |a| - 1;
    forall i | 0 <= i < |a| ensures SameEvidence(a[i], b[i]) {
      if i < m {
        assert SameEvidence(a[..m][i], b[..m][i]);
      }
    }
  }

  /** The last records of two such chains agree, and so do the hashes they link to; or they collide. */
  lemma CompareLast(sha: Hash, a: seq<EvidenceRecord>, b: seq<EvidenceRecord>) returns (c: Comparison)
    requires a != [] && b != [] && Linked(sha, a) && Linked(sha, b)
    requires a[|a| - 1].auditHash == b[|b| - 1].auditHash
    ensures c == Same ==> SameEvidence(a[|a| - 1], b[|b| - 1])
    ensures c == Same ==> PreviousOf(a, |a| - 1) == PreviousOf(b, |b| - 1)
    ensures c != Same ==> IsCollision(sha, a, b, c)
  {
    var m, n := |a| - 1, |b| - 1;
    assert GoodAt(sha, a, m) && GoodAt(sha, b, n);
    c := CompareRecords(sha, a[m], b[n]);
  }

  /**
   * Tamper evidence: two accepted chains with the same last audit hash agree in length and,
   * record by record, in everything hashed, or the proof yields a collision of sha between
   * two texts the chains hashed.
   */
  lemma {:induction false} TamperEvidence(sha: Hash, a: seq<EvidenceRecord>, b: seq<EvidenceRecord>) returns (c: Comparison)
    requires a != [] && b != [] && Linked(sha, a) && Linked(sha, b)
    requires a[|a| - 1].auditHash == b[|b| - 1].auditHash
    ensures c == Same ==> SameChain(a, b)
    ensures c != Same ==> IsCollision(sha, a, b, c)
    decreases |a|
  {
    var m, n := |a| - 1, |b| - 1;
    c := CompareLast(sha, a, b);
    if c == Same && m == 0 {
      SameChainSnoc(a, b);
    } else if c == Same {
      LinkedPrefix(sha, a, m);
      LinkedPrefix(sha, b, n);
      c := TamperEvidence(sha, a[..m], b[..n]);
      if c == Same {
        SameChainSnoc(a, b);
      } else {
        CollisionOfPrefixes(sha, a, b, m, n, c);
      }
    }
  }

  /** With no collision among the texts hashed, a head hash pins its whole chain. */
  lemma HeadHashPinsChain(sha: Hash, a: seq<EvidenceRecord>, b: seq<EvidenceRecord>)
    requires a != [] && b != [] && Linked(sha, a) && Linked(sha, b)
    requires a[|a| - 1].auditHash == b[|b| - 1].auditHash
    requires forall c :: !IsCollision(sha, a, b, c)
    ensures SameChain(a, b)
  {
    var c := TamperEvidence(sha, a, b);
  }

  /** What verification cannot see: a cut-off tail, and the fields that are not hashed. */
  lemma UnseenChanges(sha: Hash, records: seq<EvidenceRecord>, n: nat, ids: seq<(Text, Text, Text)>)
    requires Linked(sha, records) && n <= |records| && |ids| == |records|
    ensures Linked(sha, records[..n])
    ensures Linked(sha, seq(|records|, i requires 0 <= i < |records| =>
      records[i].(id := ids[i].0, tenantId := ids[i].1, correlationId := ids[i].2)))
  {
    LinkedPrefix(sha, records, n);
    var rs := seq(|records|, i requires 0 <= i < |records| =>
      records[i].(id := ids[i].0, tenantId := ids[i].1, correlationId := ids[i].2));
    forall i | 0 <= i < |rs| ensures GoodAt(sha, rs, i) {
      assert GoodAt(sha, records, i);
      assert PreviousOf(rs, i) == PreviousOf(records, i);
    }
  }

  // ---------------------------------------------------------------------- the service

  class EvidenceChain {
    const tenantId: Text
    const correlationId: Text
    var records: seq<EvidenceRecord>
    var headHash: Option<Text>

    constructor (tenantId: Text, correlationId: Text)
      ensures this.tenantId == tenantId && this.correlationId == correlationId
      ensures records == [] && headHash == None
    {
      this.tenantId := tenantId;
      this.correlationId := correlationId;
      records := [];
      headHash := None;
    }

    /** Accepted by verification, numbered from zero, and the head is the last audit hash. */
    ghost predicate Valid(sha: Hash)
      reads this
    {
      && Linked(sha, records)
      && headHash == PreviousOf(records, |records|)
      && forall i :: 0 <= i < |records| ==> Numbered(records[i], i)
    }

    predicate Numbered(r: EvidenceRecord, i: nat) {
      r.sequence == NatNumber(i) && r.tenantId == tenantId && r.correlationId == correlationId
    }

    /** Adds a record that continues the chain, and moves the head. */
    method Push(ghost sha: Hash, record: EvidenceRecord)
      requires Valid(sha) && Linked(sha, records + [record])
      requires Numbered(record, |records|)
      modifies this
      ensures Valid(sha) && records == old(records) + [record]
    {
      records := records + [record];
      headHash := Some(record.auditHash);
    }
  }

  datatype EvidenceInput = EvidenceInput(
    tenantId: Text,
    correlationId: Text,
    timestamp: Text,
    operationType: Text,
    payload: Payload)

  class EvidenceChainService {
    const sha: Hash
    var chains: map<Text, map<Text, EvidenceChain>>
    ghost var Repr: set<EvidenceChain>

    constructor (sha: Hash)
      ensures Valid() && this.sha == sha && chains == map[] && Repr == {}
    {
      this.sha := sha;
      chains := map[];
      Repr := {};
    }

    predicate Has(t: Text, c: Text)
      reads this
    {
      t in chains && c in chains[t]
    }

    /** Each chain is valid and stored under its own tenant and correlation id. */
    ghost predicate Valid()
      reads this, Repr
    {
      forall t, c {:trigger Has(t, c)} :: Has(t, c) ==>
        var chain := chains[t][c];
        chain in Repr && chain.Valid(sha) && chain.tenantId == t && chain.correlationId == c
    }

    /** The records of a chain, none when it does not exist. */
    ghost function RecordsOf(t: Text, c: Text): seq<EvidenceRecord>
      requires Valid()
      reads this, Repr
    {
      if Has(t, c) then chains[t][c].records else []
    }

    method GetOrCreateChain(t: Text, c: Text) returns (chain: EvidenceChain)
      requires Valid()
      modifies this
      ensures Valid() && fresh(Repr - old(Repr))
      ensures Has(t, c) && chains[t][c] == chain
      ensures forall t', c' :: RecordsOf(t', c') == old(RecordsOf(t', c'))
    {
      var tenantChains: map<Text, EvidenceChain> := if t in chains then chains[t] else map[];
      if c in tenantChains {
        chain := tenantChains[c];
        assert Has(t, c);
      } else {
        chain := new EvidenceChain(t, c);
        chains := chains[t := tenantChains[c := chain]];
        Repr := Repr + {chain};
        assert forall t', c' {:trigger Has(t', c')} :: Has(t', c') <==> old(Has(t', c')) || (t' == t && c' == c);
        assert forall t', c' {:trigger Has(t', c')} :: old(Has(t', c')) ==> chains[t'][c'] == old(chains[t'][c']);
        assert Has(t, c);
      }
    }

    /** Appends one record, or throws on a payload that cannot be serialized and changes no record. */
    method Append(input: EvidenceInput, id: Text) returns (r: Result<EvidenceRecord, SerialError>)
      requires Valid()
      modifies this, Repr
      ensures Valid() && fresh(Repr - old(Repr))
      ensures input.payload.Err? ==> r == Err(input.payload.error)
      ensures input.payload.Ok? ==> r == Ok(NextRecord(sha, old(RecordsOf(input.tenantId, input.correlationId)), id,
        input.correlationId, input.tenantId, input.timestamp, input.operationType, input.payload))
      ensures r.Ok? ==> Continues(sha, old(RecordsOf(input.tenantId, input.correlationId)), r.value, id,
        input.correlationId, input.tenantId, input.timestamp, input.operationType, input.payload.value)
      ensures forall t, c ::
        RecordsOf(t, c) == old(RecordsOf(t, c)) + (if r.Ok? && t == input.tenantId && c == input.correlationId then [r.value] else [])
    {
      hide Continues;
      if input.payload.Ok? {
        NextContinues(sha, RecordsOf(input.tenantId, input.correlationId), id, input.correlationId, input.tenantId, input.timestamp,
                    input.operationType, input.payload);
      }
      var chain := GetOrCreateChain(input.tenantId, input.correlationId);
      var sequence := |chain.records|;
      var previousHash := chain.headHash;
      if input.payload.Err? {
        return Err(input.payload.error);
      }
      var payloadHash := HashCanonicalJson(sha, input.payload.value);
      var auditHash := HashChainEntry(sha,
        ChainEntry(NatNumber(sequence), previousHash, payloadHash, input.operationType, Some(input.timestamp)));
      var record := EvidenceRecord(id, input.correlationId, input.timestamp, input.tenantId, auditHash,
        input.operationType, input.payload, NatNumber(sequence), previousHash);
      LinkedSnoc(sha, chain.records, record);
      chain.Push(sha, record);
      return Ok(record);
    }

    method GetChain(t: Text, c: Text) returns (chain: Option<EvidenceChain>)
      ensures chain == if Has(t, c) then Some(chains[t][c]) else None
    {
      if t !in chains {
        return None;
      }
      return if c in chains[t] then Some(chains[t][c]) else None;
    }

    /** Every chain this service wrote is accepted; a missing one is reported as such. */
    method Verify(t: Text, c: Text) returns (r: Result<Verification, SerialError>)
      requires Valid()
      ensures r == Ok(
        if Has(t, c) then Verification(true, |RecordsOf(t, c)|, None, None, None, None, None)
        else Verification(false, 0, None, None, None, None, Some(ChainNotFound)))
    {
      var chain := GetChain(t, c);
      match chain
      case None => return Ok(Verification(false, 0, None, None, None, None, Some(ChainNotFound)));
      case Some(ch) => r := VerifyChain(sha, ch.records);
    }
  }
}
