/** Content-addressed vector keys and the shared vector cache. */
module Vectors {
  import opened Wrappers
  import opened Bytes

  const VECTOR_KEY_BYTES: nat := 32
  const LOOKUP_BATCH_SIZE: nat := 128
  const U64_BYTES: nat := 8

  type VectorKey = k: seq<Byte> | |k| == VECTOR_KEY_BYTES witness seq(VECTOR_KEY_BYTES, _ => 0)

  // ----- hexadecimal spelling ------------------------------------------------------------------

  /** The lowercase digit of a nibble. */
  function HexChar(nibble: nat): Byte
    requires nibble < 16
  {
    if nibble < 10 then 48 + nibble else 87 + nibble
  }

  function HexDigit(value: Byte): Option<nat> {
    if 48 <= value <= 57 then Some(value - 48)
    else if 97 <= value <= 102 then Some(value - 87)
    else None
  }

  function PrintHex(bytes: seq<Byte>): (r: Text)
    ensures |r| == 2 * |bytes|
  {
    if bytes == [] then []
    else PrintHex(bytes[..|bytes| - 1]) + [HexChar(bytes[|bytes| - 1] / 16), HexChar(bytes[|bytes| - 1] % 16)]
  }

  datatype ParseError = InvalidLength(actual: nat) | InvalidHex(index: nat)

  /** Pair `i` of the text is two lowercase digits. */
  predicate GoodPair(value: Text, i: nat)
    requires 2 * i + 1 < |value|
  {
    HexDigit(value[2 * i]).Some? && HexDigit(value[2 * i + 1]).Some?
  }

  function Pair(value: Text, i: nat): Byte
    requires 2 * i + 1 < |value| && GoodPair(value, i)
  {
    HexDigit(value[2 * i]).value * 16 + HexDigit(value[2 * i + 1]).value
  }

  lemma PairPrints(value: Text, i: nat)
    requires 2 * i + 1 < |value| && GoodPair(value, i)
    ensures HexChar(Pair(value, i) / 16) == value[2 * i] && HexChar(Pair(value, i) % 16) == value[2 * i + 1]
  {
    var high, low := HexDigit(value[2 * i]).value, HexDigit(value[2 * i + 1]).value;
    assert (high * 16 + low) / 16 == high && (high * 16 + low) % 16 == low;
  }

  /** One pair of the scan. */
  lemma PairStep(value: Text, i: nat)
    requires |value| == 2 * VECTOR_KEY_BYTES && i < VECTOR_KEY_BYTES && forall j :: 0 <= j < i ==> GoodPair(value, j)
    ensures FirstBad(value, i) == if GoodPair(value, i) then FirstBad(value, i + 1) else i
    ensures GoodPair(value, i) ==> Pairs(value, i + 1) == Pairs(value, i) + [Pair(value, i)]
  {
    hide HexDigit;
  }

  lemma PairEnds(value: Text)
    requires |value| == 2 * VECTOR_KEY_BYTES
    ensures FirstBad(value, VECTOR_KEY_BYTES) == VECTOR_KEY_BYTES && Pairs(value, 0) == []
  {
  }

  /** `VectorKey::from_str`. */
  method ParseKey(value: Text) returns (r: Result<VectorKey, ParseError>)
    ensures r == Parsed(value)
  {
    hide FirstBad, Pairs;
    if |value| != 2 * VECTOR_KEY_BYTES {
      return Err(InvalidLength(|value|));
    }
    PairEnds(value);
    var digest: seq<Byte> := [];
    for i := 0 to VECTOR_KEY_BYTES
      invariant forall j :: 0 <= j < i ==> GoodPair(value, j)
      invariant FirstBad(value, 0) == FirstBad(value, i)
      invariant digest == Pairs(value, i)
    {
      PairStep(value, i);
      var high := HexDigit(value[2 * i]);
      if high.None? {
        return Err(InvalidHex(i));
      }
      var low := HexDigit(value[2 * i + 1]);
      if low.None? {
        return Err(InvalidHex(i));
      }
      digest := digest + [high.value * 16 + low.value];
    }
    r := Ok(digest);
  }

  function FirstBad(value: Text, from: nat): nat
    requires |value| == 2 * VECTOR_KEY_BYTES && from <= VECTOR_KEY_BYTES
    decreases VECTOR_KEY_BYTES - from
  {
    if from == VECTOR_KEY_BYTES || !GoodPair(value, from) then from else FirstBad(value, from + 1)
  }

  function Pairs(value: Text, count: nat): (r: seq<Byte>)
    requires 2 * count <= |value| && forall j :: 0 <= j < count ==> GoodPair(value, j)
    ensures |r| == count
  {
    if count == 0 then [] else Pairs(value, count - 1) + [Pair(value, count - 1)]
  }

  lemma {:induction false} FirstBadIsFirst(value: Text, from: nat)
    requires |value| == 2 * VECTOR_KEY_BYTES && from <= VECTOR_KEY_BYTES
    requires forall j :: 0 <= j < from ==> GoodPair(value, j)
    ensures var bad := FirstBad(value, from);
      && bad <= VECTOR_KEY_BYTES && (forall j :: 0 <= j < bad ==> GoodPair(value, j))
      && (bad < VECTOR_KEY_BYTES ==> !GoodPair(value, bad))
    decreases VECTOR_KEY_BYTES - from
  {
    if from < VECTOR_KEY_BYTES && GoodPair(value, from) {
      FirstBadIsFirst(value, from + 1);
    }
  }

  /** Parsing as a function, for use in specifications. */
  function Parsed(value: Text): Result<VectorKey, ParseError> {
    if |value| != 2 * VECTOR_KEY_BYTES then Err(InvalidLength(|value|))
    else
      FirstBadIsFirst(value, 0);
      var bad := FirstBad(value, 0);
      if bad < VECTOR_KEY_BYTES then Err(InvalidHex(bad)) else Ok(Pairs(value, VECTOR_KEY_BYTES))
  }

  predicate IsLowerHex(c: Byte) {
    '0' as int <= c <= '9' as int || 'a' as int <= c <= 'f' as int
  }

  /** A text is refused exactly for not having 64 characters, or for its first pair that is not two
      lowercase hexadecimal digits. */
  lemma ParseFailsExactlyWhen(value: Text, i: nat)
    ensures (Parsed(value).Err? && Parsed(value).error.InvalidLength?) <==> |value| != 64
    ensures Parsed(value) == Err(InvalidHex(i)) <==>
      && |value| == 64 && i < 32
      && (forall j :: 0 <= j < 2 * i ==> IsLowerHex(value[j]))
      && !(IsLowerHex(value[2 * i]) && IsLowerHex(value[2 * i + 1]))
  {
    if |value| == 64 {
      FirstBadIsFirst(value, 0);
      var bad := FirstBad(value, 0);
      hide FirstBad;
      GoodPairsAre(value);
      hide GoodPair;
      forall j | 0 <= j < 2 * bad ensures IsLowerHex(value[j]) {
        assert j == 2 * (j / 2) || j == 2 * (j / 2) + 1;
        assert GoodPair(value, j / 2);
      }
    }
  }

  lemma GoodPairsAre(value: Text)
    ensures forall i: nat :: 2 * i + 1 < |value| ==>
      (GoodPair(value, i) <==> IsLowerHex(value[2 * i]) && IsLowerHex(value[2 * i + 1]))
  {
  }

  lemma {:induction false} PrintedPairs(bytes: seq<Byte>, count: nat)
    requires count <= |bytes|
    ensures forall j :: 0 <= j < count ==> GoodPair(PrintHex(bytes), j)
    ensures Pairs(PrintHex(bytes), count) == bytes[..count]
    decreases count
  {
    if count > 0 {
      PrintedPairs(bytes, count - 1);
      PrintedPair(bytes, count - 1);
      assert bytes[..count] == bytes[..count - 1] + [bytes[count - 1]];
    }
  }

  lemma {:induction false} PrintedPair(bytes: seq<Byte>, i: nat)
    requires i < |bytes|
    ensures GoodPair(PrintHex(bytes), i) && Pair(PrintHex(bytes), i) == bytes[i]
  {
    var n := |bytes| - 1;
    if i < n {
      PrintedPair(bytes[..n], i);
      assert PrintHex(bytes)[..2 * n] == PrintHex(bytes[..n]);
    }
  }

  lemma {:induction false} FirstBadOfGood(value: Text, from: nat)
    requires |value| == 2 * VECTOR_KEY_BYTES && from <= VECTOR_KEY_BYTES
    requires forall j :: 0 <= j < VECTOR_KEY_BYTES ==> GoodPair(value, j)
    ensures FirstBad(value, from) == VECTOR_KEY_BYTES
    decreases VECTOR_KEY_BYTES - from
  {
    if from < VECTOR_KEY_BYTES {
      FirstBadOfGood(value, from + 1);
    }
  }

  /** Every printed key parses to itself. */
  lemma HexRoundTrip(key: VectorKey)
    ensures Parsed(PrintHex(key)) == Ok(key)
  {
    PrintedPairs(key, VECTOR_KEY_BYTES);
    FirstBadOfGood(PrintHex(key), 0);
    assert key[..VECTOR_KEY_BYTES] == key;
  }

  lemma {:induction false} PairsPrint(value: Text, count: nat)
    requires 2 * count <= |value| && forall j :: 0 <= j < count ==> GoodPair(value, j)
    ensures PrintHex(Pairs(value, count)) == value[..2 * count]
  {
    if count > 0 {
      PairsPrint(value, count - 1);
      PairPrints(value, count - 1);
      assert Pairs(value, count)[..count - 1] == Pairs(value, count - 1);
    }
  }

  /** Every text that parses is the one spelling of its key. */
  lemma HexIsCanonical(value: Text)
    requires Parsed(value).Ok?
    ensures PrintHex(Parsed(value).value) == value
  {
    FirstBadIsFirst(value, 0);
    PairsPrint(value, VECTOR_KEY_BYTES);
    assert value[..2 * VECTOR_KEY_BYTES] == value;
  }

  lemma PrintIsInjective(a: VectorKey, b: VectorKey)
    requires PrintHex(a) == PrintHex(b)
    ensures a == b
  {
    HexRoundTrip(a);
    HexRoundTrip(b);
  }

  // ----- key derivation ----------------------------------------------------------------------------

  datatype Role = Passage | Query

  /** The ASCII labels `passage` and `query`. */
  function RoleText(role: Role): Text {
    match role
    case Passage => [112, 97, 115, 115, 97, 103, 101]
    case Query => [113, 117, 101, 114, 121]
  }

  predicate FieldFits(value: Text) { |value| < Pow256(U64_BYTES) }

  /** `hash_field`: a 64-bit length, then the bytes. */
  function Field(value: Text): Text {
    ToBigEndian(|value|, U64_BYTES) + value
  }

  function Preimage(signature: Text, role: Role, text: Text): Text {
    Field(signature) + (Field(RoleText(role)) + Field(text))
  }

  /** A field can be taken off the front in only one way. */
  lemma FieldSplits(a: Text, x: Text, b: Text, y: Text)
    requires FieldFits(a) && FieldFits(b) && Field(a) + x == Field(b) + y
    ensures a == b && x == y
  {
    var s, t := Field(a) + x, Field(b) + y;
    BigEndianRoundTrip(|a|, U64_BYTES);
    BigEndianRoundTrip(|b|, U64_BYTES);
    assert s[..U64_BYTES] == ToBigEndian(|a|, U64_BYTES) && t[..U64_BYTES] == ToBigEndian(|b|, U64_BYTES);
    assert s[U64_BYTES..U64_BYTES + |a|] == a && t[U64_BYTES..U64_BYTES + |b|] == b;
    assert s[U64_BYTES + |a|..] == x && t[U64_BYTES + |b|..] == y;
  }

  /** The hashed bytes determine the signature, the role and the text. */
  lemma PreimageIsInjective(s1: Text, r1: Role, t1: Text, s2: Text, r2: Role, t2: Text)
    requires FieldFits(s1) && FieldFits(t1) && FieldFits(s2) && FieldFits(t2)
    requires Preimage(s1, r1, t1) == Preimage(s2, r2, t2)
    ensures s1 == s2 && r1 == r2 && t1 == t2
  {
    RoleFits(r1);
    RoleFits(r2);
    FieldSplits(s1, Field(RoleText(r1)) + Field(t1), s2, Field(RoleText(r2)) + Field(t2));
    FieldSplits(RoleText(r1), Field(t1), RoleText(r2), Field(t2));
    assert Field(t1) + [] == Field(t2) + [];
    FieldSplits(t1, [], t2, []);
    assert |RoleText(Passage)| != |RoleText(Query)|;
  }

  /** Takes a 64-bit length and that many bytes off the front. */
  function TakeField(bytes: Text): Option<(Text, Text)> {
    if |bytes| < 8 then None
    else
      var length := FromBigEndian(bytes[..8]);
      if |bytes| - 8 < length then None else Some((bytes[8..8 + length], bytes[8 + length..]))
  }

  lemma FieldReads(value: Text, rest: Text)
    requires FieldFits(value)
    ensures TakeField(Field(value) + rest) == Some((value, rest))
  {
    BigEndianRoundTrip(|value|, U64_BYTES);
    var all := Field(value) + rest;
    assert all[..8] == ToBigEndian(|value|, U64_BYTES);
    assert all[8..8 + |value|] == value && all[8 + |value|..] == rest;
  }

  /** The hashed bytes read back as the signature, the role's label and the text, and nothing more. */
  lemma PreimageReads(signature: Text, role: Role, text: Text)
    requires FieldFits(signature) && FieldFits(text)
    ensures var first := TakeField(Preimage(signature, role, text));
      && first.Some? && first.value.0 == signature
      && var second := TakeField(first.value.1);
         && second.Some? && Spells(second.value.0, if role == Passage then "passage" else "query")
         && TakeField(second.value.1) == Some((text, []))
  {
    RoleFits(role);
    FieldReads(signature, Field(RoleText(role)) + Field(text));
    FieldReads(RoleText(role), Field(text));
    assert Field(text) + [] == Field(text);
    FieldReads(text, []);
  }

  /** The bytes are the ASCII codes of the word. */
  predicate Spells(bytes: Text, word: string) {
    |bytes| == |word| && forall i :: 0 <= i < |bytes| ==> bytes[i] == word[i] as int
  }

  lemma RoleFits(role: Role)
    ensures FieldFits(RoleText(role))
  {
    assert Pow256(8) == 256 * Pow256(7);
  }

  type Digest = Text -> VectorKey

  /** Equal keys come from equal inputs, or exhibit a collision of the digest itself. */
  lemma KeysAreContentAddresses(digest: Digest, s1: Text, r1: Role, t1: Text, s2: Text, r2: Role, t2: Text)
    requires FieldFits(s1) && FieldFits(t1) && FieldFits(s2) && FieldFits(t2)
    requires digest(Preimage(s1, r1, t1)) == digest(Preimage(s2, r2, t2))
    ensures (s1 == s2 && r1 == r2 && t1 == t2) || exists x: Text, y: Text :: x != y && digest(x) == digest(y)
  {
    if Preimage(s1, r1, t1) == Preimage(s2, r2, t2) {
      PreimageIsInjective(s1, r1, t1, s2, r2, t2);
    }
  }

  // ----- lookup batches ------------------------------------------------------------------------------

  function PrintAll(keys: seq<VectorKey>): (r: seq<Text>)
    ensures |r| == |keys| && forall i :: 0 <= i < |r| ==> r[i] == PrintHex(keys[i])
  {
    seq(|keys|, i requires 0 <= i < |keys| => PrintHex(keys[i]))
  }

  function Flatten(batches: seq<seq<Text>>): seq<Text> {
    if batches == [] then [] else Flatten(batches[..|batches| - 1]) + batches[|batches| - 1]
  }

  lemma FlattenMore(batches: seq<seq<Text>>, batch: seq<Text>)
    ensures Flatten([]) == [] && Flatten(batches + [batch]) == Flatten(batches) + batch
  {
    assert (batches + [batch])[..|batches|] == batches;
  }

  lemma PrintMore(keys: seq<VectorKey>, i: nat)
    requires i < |keys|
    ensures PrintAll([]) == [] && PrintAll(keys[..i + 1]) == PrintAll(keys[..i]) + [PrintHex(keys[i])]
  {
    hide PrintHex;
  }

  /** `encoded_key_batches`: nothing is lost or reordered, every batch fits a statement, and
      only the last may be short. */
  method EncodedKeyBatches(requested: seq<VectorKey>) returns (batches: seq<seq<Text>>)
    ensures Flatten(batches) == PrintAll(requested)
    ensures forall i :: 0 <= i < |batches| ==> 0 < |batches[i]| <= LOOKUP_BATCH_SIZE
    ensures forall i :: 0 <= i < |batches| - 1 ==> |batches[i]| == LOOKUP_BATCH_SIZE
  {
    hide PrintHex, Flatten, PrintAll;
    batches := [];
    var batch: seq<Text> := [];
    FlattenMore([], []);
    assert requested[..0] == [] && PrintAll([]) == [];
    for i := 0 to |requested|
      invariant Flatten(batches) + batch == PrintAll(requested[..i])
      invariant |batch| < LOOKUP_BATCH_SIZE
      invariant forall j :: 0 <= j < |batches| ==> |batches[j]| == LOOKUP_BATCH_SIZE
    {
      PrintMore(requested, i);
      batch := batch + [PrintHex(requested[i])];
      if |batch| == LOOKUP_BATCH_SIZE {
        FlattenMore(batches, batch);
        batches := batches + [batch];
        batch := [];
      }
    }
    assert requested[..|requested|] == requested;
    if batch != [] {
      FlattenMore(batches, batch);
      batches := batches + [batch];
    }
  }

  // ----- the cache -------------------------------------------------------------------------------------

  datatype Row = Row(signature: Text, dimensions: int, bytes: Text)

  datatype VectorInsert = VectorInsert(key: VectorKey, signature: Text, role: Role, text: Text, dimensions: nat,
                                       bytes: Text)

  datatype VectorError =
    | EmptyModelSignature
    | KeyFieldTooLong
    | KeyMismatch
    | InvalidDimensions
    | InvalidEmbedding
    | VectorCollision(key: VectorKey)
    | InvalidStoredKey(value: Text)
    | UnexpectedStoredKey(stored: VectorKey)
    | InvalidStoredRow(key: VectorKey)
    | DuplicateStoredVector(key: VectorKey)

  datatype SweepReport = SweepReport(kept: nat, removed: nat)

  /** What a sweep reports: every stored row once. */
  function Tally(stored: set<VectorKey>, doomed: set<VectorKey>): SweepReport {
    SweepReport(|stored - doomed|, |doomed|)
  }

  /** What an insertion leaves: rows already stored are never changed. */
  function InsertMissing(cache: map<VectorKey, Row>, rows: map<VectorKey, Row>): map<VectorKey, Row> {
    rows + cache
  }

  const I64_MAX: nat := 0x7FFF_FFFF_FFFF_FFFF

  /** Keys a sweep removes: stored at both the snapshot and now, and not referenced. */
  function Doomed(stored: set<VectorKey>, initial: set<VectorKey>, live: set<VectorKey>): set<VectorKey> {
    stored * initial - live
  }

  /** Checked access to the shared vector database, whose rows are addressed by the hexadecimal
      spelling of their key. `decodes` is the embedding decoder's verdict on stored bytes. */
  class VectorCache {
    const digest: Digest
    const decodes: (Text, nat) -> bool
    var rows: map<Text, Row>

    constructor (digest: Digest, decodes: (Text, nat) -> bool, rows: map<Text, Row>)
      ensures this.digest == digest && this.decodes == decodes && this.rows == rows
    {
      this.digest := digest;
      this.decodes := decodes;
      this.rows := rows;
    }

    /** The validation one record must pass before any transaction begins. */
    ghost predicate Acceptable(item: VectorInsert) {
      && item.signature != [] && FieldFits(item.signature) && FieldFits(item.text)
      && item.key == digest(Preimage(item.signature, item.role, item.text))
      && item.dimensions <= I64_MAX && decodes(item.bytes, item.dimensions)
    }

    method Prepare(item: VectorInsert) returns (r: Result<Row, VectorError>)
      ensures r.Ok? <==> Acceptable(item)
      ensures r.Ok? ==> r.value == RowOf(item)
    {
      if item.signature == [] {
        return Err(EmptyModelSignature);
      }
      if |item.signature| >= Pow256(U64_BYTES) || |item.text| >= Pow256(U64_BYTES) {
        return Err(KeyFieldTooLong);
      }
      if item.key != digest(Preimage(item.signature, item.role, item.text)) {
        return Err(KeyMismatch);
      }
      if item.dimensions > I64_MAX {
        return Err(InvalidDimensions);
      }
      if !decodes(item.bytes, item.dimensions) {
        return Err(InvalidEmbedding);
      }
      r := Ok(Row(item.signature, item.dimensions, item.bytes));
    }

    /** Every record is acceptable and agrees with every other record and stored row of its key. */
    ghost predicate Insertable(stored: map<Text, Row>, input: seq<VectorInsert>) {
      && (forall i :: 0 <= i < |input| ==> Acceptable(input[i]))
      && (forall i, j :: 0 <= i < j < |input| && input[i].key == input[j].key ==> RowOf(input[i]) == RowOf(input[j]))
      && (forall i :: 0 <= i < |input| && PrintHex(input[i].key) in stored ==>
            stored[PrintHex(input[i].key)] == RowOf(input[i]) && RowOf(input[i]).dimensions > 0)
    }

    /** The records of a batch by key; repeated records must agree. */
    method PrepareAll(input: seq<VectorInsert>) returns (r: Result<map<VectorKey, Row>, VectorError>)
      ensures r.Ok? <==> Insertable(map[], input)
      ensures r.Ok? ==> forall k :: k in r.value ==> exists i :: 0 <= i < |input| && input[i].key == k
      ensures r.Ok? ==> forall i :: 0 <= i < |input| ==>
        input[i].key in r.value && r.value[input[i].key] == RowOf(input[i])
    {
      hide PrintHex, Acceptable, RowOf;
      var prepared: map<VectorKey, Row> := map[];
      for n := 0 to |input|
        invariant forall i :: 0 <= i < n ==> Acceptable(input[i])
        invariant forall k :: k in prepared ==> exists i :: 0 <= i < n && input[i].key == k
        invariant forall i :: 0 <= i < n ==> input[i].key in prepared && prepared[input[i].key] == RowOf(input[i])
      {
        var item := Prepare(input[n]);
        if item.Err? {
          return Err(item.error);
        }
        var key := input[n].key;
        if key in prepared {
          if prepared[key] != item.value {
            ghost var i :| 0 <= i < n && input[i].key == key;
            assert RowOf(input[i]) != RowOf(input[n]);
            return Err(VectorCollision(key));
          }
        } else {
          prepared := prepared[key := item.value];
        }
      }
      r := Ok(prepared);
    }

    /** Inserts a batch atomically: either every record is stored and no existing row has
        changed, or nothing has. */
    method InsertBatch(input: seq<VectorInsert>) returns (r: Result<(), VectorError>)
      modifies this
      ensures r.Ok? <==> Insertable(old(rows), input)
      ensures r.Err? ==> rows == old(rows)
      ensures r.Ok? ==> rows.Keys == old(rows).Keys + set i | 0 <= i < |input| :: PrintHex(input[i].key)
      ensures r.Ok? ==> forall h :: h in old(rows) ==> rows[h] == old(rows)[h]
      ensures r.Ok? ==> forall i :: 0 <= i < |input| ==> rows[PrintHex(input[i].key)] == RowOf(input[i])
      ensures r.Ok? ==> Table(rows) == InsertMissing(old(Table(rows)), RowsOf(input))
    {
      hide PrintHex, Table, InsertMissing, RowsOf, RowOf, Insertable, Agrees, Adds;
      EmptyTableAccepts(rows, input);
      var prepared := PrepareAll(input);
      if prepared.Err? {
        return Err(prepared.error);
      }
      InsertableExactlyWhen(rows, prepared.value, input);
      var staged := StageAll(prepared.value);
      if staged.Err? {
        return Err(staged.error);
      }
      StagedAdds(rows, staged.value, prepared.value, input);
      InsertedTable(rows, staged.value, input);
      AddedRows(rows, staged.value, input);
      rows := staged.value;
      r := Ok(());
    }

    /** What a batch must satisfy by itself does not depend on the table. */
    lemma EmptyTableAccepts(stored: map<Text, Row>, input: seq<VectorInsert>)
      ensures Insertable(stored, input) ==> Insertable(map[], input)
    {
      hide PrintHex, RowOf, Acceptable;
    }

    lemma InsertableExactlyWhen(stored: map<Text, Row>, prepared: map<VectorKey, Row>, input: seq<VectorInsert>)
      requires Insertable(map[], input)
      requires forall k :: k in prepared ==> exists i :: 0 <= i < |input| && input[i].key == k
      requires forall i :: 0 <= i < |input| ==> input[i].key in prepared && prepared[input[i].key] == RowOf(input[i])
      ensures Insertable(stored, input) <==> forall k :: k in prepared ==> Agrees(stored, k, prepared[k])
    {
      hide PrintHex;
      if Insertable(stored, input) {
        forall k | k in prepared ensures Agrees(stored, k, prepared[k]) {
          var i :| 0 <= i < |input| && input[i].key == k;
          assert Acceptable(input[i]);
        }
      }
      if forall k :: k in prepared ==> Agrees(stored, k, prepared[k]) {
        forall i | 0 <= i < |input| && PrintHex(input[i].key) in stored
          ensures stored[PrintHex(input[i].key)] == RowOf(input[i]) && RowOf(input[i]).dimensions > 0
        {
          assert Agrees(stored, input[i].key, prepared[input[i].key]);
        }
      }
    }

    /** A stored row of this key is readable and identical. */
    predicate Agrees(stored: map<Text, Row>, key: VectorKey, row: Row) {
      PrintHex(key) in stored ==> stored[PrintHex(key)] == row && row.dimensions > 0 && row.signature != []
    }

    /** The transaction of `insert_batch`, up to its commit. */
    method StageAll(prepared: map<VectorKey, Row>) returns (r: Result<map<Text, Row>, VectorError>)
      ensures r.Ok? <==> forall k :: k in prepared ==> Agrees(rows, k, prepared[k])
      ensures r.Ok? ==> forall h :: h in r.value && h !in rows ==> exists k :: k in prepared && PrintHex(k) == h
      ensures r.Ok? ==> forall h :: h in rows ==> h in r.value && r.value[h] == rows[h]
      ensures r.Ok? ==> forall k :: k in prepared ==> PrintHex(k) in r.value && r.value[PrintHex(k)] == prepared[k]
    {
      hide PrintHex;
      var todo := prepared.Keys;
      var staged := rows;
      while todo != {}
        invariant todo <= prepared.Keys
        invariant forall k :: k in prepared && k !in todo ==> Agrees(rows, k, prepared[k])
        invariant forall h :: h in staged && h !in rows ==> exists k :: k in prepared && k !in todo && PrintHex(k) == h
        invariant forall h :: h in rows ==> h in staged && staged[h] == rows[h]
        invariant forall k :: k in prepared && k !in todo ==>
          PrintHex(k) in staged && staged[PrintHex(k)] == prepared[k]
        decreases todo
      {
        var key :| key in todo;
        var next := StageOne(staged, key, prepared[key]);
        if next.Err? {
          Unstaged(rows, staged, prepared, todo, key);
          return Err(next.error);
        }
        Unstaged(rows, staged, prepared, todo, key);
        staged := next.value;
        todo := todo - {key};
      }
      r := Ok(staged);
    }

    method StageOne(staged: map<Text, Row>, key: VectorKey, row: Row) returns (r: Result<map<Text, Row>, VectorError>)
      ensures r.Ok? <==> Agrees(staged, key, row)
      ensures r.Ok? ==> r.value == staged[PrintHex(key) := row]
    {
      hide PrintHex;
      var hash := PrintHex(key);
      if hash in staged {
        if staged[hash].signature == [] || staged[hash].dimensions <= 0 {
          return Err(InvalidStoredRow(key));
        }
        if staged[hash] != row {
          return Err(VectorCollision(key));
        }
        assert staged[hash := row] == staged;
        r := Ok(staged);
      } else {
        r := Ok(staged[hash := row]);
      }
    }

    /** A key not yet staged reads the same in the transaction as in the committed table. */
    lemma Unstaged(stored: map<Text, Row>, staged: map<Text, Row>, prepared: map<VectorKey, Row>,
                   todo: set<VectorKey>, key: VectorKey)
      requires key in todo
      requires forall h :: h in staged && h !in stored ==> exists k :: k in prepared && k !in todo && PrintHex(k) == h
      requires forall h :: h in stored ==> h in staged && staged[h] == stored[h]
      ensures PrintHex(key) in staged <==> PrintHex(key) in stored
      ensures forall k :: k in prepared && PrintHex(k) == PrintHex(key) ==> k == key
    {
      hide PrintHex;
      forall k: VectorKey | PrintHex(k) == PrintHex(key) ensures k == key {
        PrintIsInjective(k, key);
      }
    }

    // ----- batched lookups ---------------------------------------------------------------------------

    /** The rows one `SELECT ... WHERE hash IN (batch)` returns strike their keys off `missing`. */
    method StrikeBatch(missing: set<VectorKey>, batch: seq<Text>) returns (r: Result<set<VectorKey>, VectorError>)
      requires Distinct(batch)
      requires forall i :: 0 <= i < |batch| ==> Spelled(missing, batch[i])
      ensures r == Ok(set k | k in missing && !(PrintHex(k) in rows && PrintHex(k) in batch))
    {
      hide PrintHex, Parsed;
      var left := missing;
      for i := 0 to |batch|
        invariant left == set k | k in missing && !(PrintHex(k) in rows && PrintHex(k) in batch[..i])
      {
        ghost var key :| key in missing && PrintHex(key) == batch[i];
        HexRoundTrip(key);
        OnlySpelling(missing, key);
        assert batch[..i + 1] == batch[..i] + [batch[i]];
        if batch[i] in rows {
          var parsed := ParseKey(batch[i]);
          if parsed.Err? {
            assert false;  // `InvalidStoredKey`
          }
          if parsed.value !in left {
            assert false;  // `UnexpectedStoredKey`
          }
          left := left - {parsed.value};
        }
      }
      assert batch[..|batch|] == batch;
      r := Ok(left);
    }

    /** `missing`: exactly the requested keys that are absent, for any number of keys; no
        stored row can make the lookup fail. */
    method Missing(requested: seq<VectorKey>) returns (r: Result<set<VectorKey>, VectorError>)
      requires forall i, j :: 0 <= i < j < |requested| ==> requested[i] != requested[j]
      ensures r == Ok(Absent(rows, requested))
    {
      hide PrintHex;
      var missing := set k | k in requested;
      var batches := EncodedKeyBatches(requested);
      SpellingsAreDistinct(requested);
      for b := 0 to |batches|
        invariant missing == set k | k in requested && !(PrintHex(k) in rows && PrintHex(k) in Flatten(batches[..b]))
      {
        BatchIsFresh(batches, b);
        forall i | 0 <= i < |batches[b]| ensures Spelled(missing, batches[b][i]) {
          assert batches[b][i] in PrintAll(requested);
          var j :| 0 <= j < |requested| && PrintAll(requested)[j] == batches[b][i];
          assert requested[j] in missing;
        }
        var struck := StrikeBatch(missing, batches[b]);
        missing := struck.value;
      }
      assert batches[..|batches|] == batches;
      SpellingsAreListed(requested);
      assert missing == Absent(rows, requested);
      r := Ok(missing);
    }

    /** What `get_many` demands of a stored row. */
    predicate Readable(row: Row) {
      row.signature != [] && row.dimensions > 0 && decodes(row.bytes, row.dimensions)
    }

    method LoadBatch(found: map<VectorKey, Row>, requested: set<VectorKey>, batch: seq<Text>)
      returns (r: Result<map<VectorKey, Row>, VectorError>)
      requires Distinct(batch)
      requires forall i :: 0 <= i < |batch| ==> Spelled(requested, batch[i])
      requires forall k :: k in found ==> PrintHex(k) !in batch
      ensures r.Ok? <==> forall i :: 0 <= i < |batch| && batch[i] in rows ==> Readable(rows[batch[i]])
      ensures r.Ok? ==> r.value == found + Picked(rows, requested, batch)
    {
      hide PrintHex, Parsed, Picked, Readable;
      var loaded := found;
      PickNone(rows, requested);
      for i := 0 to |batch|
        invariant forall j :: 0 <= j < i && batch[j] in rows ==> Readable(rows[batch[j]])
        invariant loaded == found + Picked(rows, requested, batch[..i])
      {
        ghost var key :| key in requested && PrintHex(key) == batch[i];
        assert batch[..i + 1] == batch[..i] + [batch[i]] && batch[i] !in batch[..i];
        PickMore(rows, requested, batch[..i], key);
        if batch[i] in rows {
          HexRoundTrip(key);
          var parsed := ParseKey(batch[i]);
          if parsed.Err? || parsed.value !in requested || parsed.value in loaded {
            assert false;  // `InvalidStoredKey`, `UnexpectedStoredKey`, `DuplicateStoredVector`
          }
          var readable := Check(rows[batch[i]]);
          if !readable {
            return Err(InvalidStoredRow(parsed.value));
          }
          loaded := loaded[parsed.value := rows[batch[i]]];
        }
      }
      assert batch[..|batch|] == batch;
      r := Ok(loaded);
    }

    method Check(row: Row) returns (ok: bool)
      ensures ok == Readable(row)
    {
      ok := row.signature != [] && row.dimensions > 0 && decodes(row.bytes, row.dimensions);
    }

    /** `get_many`: the restriction of the table to the requested keys, or an error exactly when
        one of those rows is unreadable. */
    method GetMany(requested: seq<VectorKey>) returns (r: Result<map<VectorKey, Row>, VectorError>)
      requires forall i, j :: 0 <= i < j < |requested| ==> requested[i] != requested[j]
      ensures r.Ok? <==> forall k :: k in requested && PrintHex(k) in rows ==> Readable(rows[PrintHex(k)])
      ensures r.Ok? ==> r.value == Present(rows, requested)
    {
      hide PrintHex, Picked, Readable;
      var wanted := set k | k in requested;
      var found: map<VectorKey, Row> := map[];
      var batches := EncodedKeyBatches(requested);
      SpellingsAreDistinct(requested);
      PickNone(rows, wanted);
      for b := 0 to |batches|
        invariant found == Picked(rows, wanted, Flatten(batches[..b]))
        invariant forall h :: h in Flatten(batches[..b]) && h in rows ==> Readable(rows[h])
      {
        BatchIsFresh(batches, b);
        BatchIsSpelled(requested, wanted, batches, b);
        hide Flatten;
        PickedKeys(rows, wanted, Flatten(batches[..b]));
        PickBoth(rows, wanted, Flatten(batches[..b]), batches[b]);
        var loaded := LoadBatch(found, wanted, batches[b]);
        if loaded.Err? {
          ghost var i :| 0 <= i < |batches[b]| && batches[b][i] in rows && !Readable(rows[batches[b][i]]);
          assert Spelled(wanted, batches[b][i]);
          return Err(loaded.error);
        }
        found := loaded.value;
      }
      assert batches[..|batches|] == batches;
      SpellingsAreListed(requested);
      PickedAll(rows, requested, wanted);
      r := Ok(found);
    }

    // ----- sweeping --------------------------------------------------------------------------------------

    /** The keys the table holds. */
    ghost function Stored(): set<VectorKey>
      reads this
    {
      StoredKeys(rows)
    }

    /** `sweep_snapshot`: removes exactly the doomed keys and counts every row once; a row whose
        hash is not a key stops it before anything is deleted. */
    method SweepSnapshot(initial: set<VectorKey>, referenced: set<VectorKey>)
      returns (r: Result<SweepReport, VectorError>)
      modifies this
      ensures r.Ok? <==> forall h :: h in old(rows) ==> Parsed(h).Ok?
      ensures r.Err? ==> rows == old(rows)
      ensures r.Ok? ==> Stored() == old(Stored()) - Doomed(old(Stored()), initial, referenced)
      ensures r.Ok? ==> forall h :: h in rows ==> h in old(rows) && rows[h] == old(rows)[h]
      ensures r.Ok? ==> r.value.kept == |rows| && r.value.kept + r.value.removed == |old(rows)|
      ensures r.Ok? ==>
        var before := old(Table(rows));
        var doomed := Doomed(before.Keys, initial, referenced);
        Table(rows) == before - doomed && r.value == Tally(before.Keys, doomed)
    {
      hide PrintHex, Parsed;
      var todo := rows.Keys;
      var kept, removed: nat := 0, 0;
      var remaining := rows;
      while todo != {}
        invariant rows == old(rows) && todo <= rows.Keys
        invariant forall h :: h in rows && h !in todo ==> Parsed(h).Ok?
        invariant remaining == map h | h in rows && (h in todo || !DoomedHash(h, initial, referenced)) :: rows[h]
        invariant kept + |todo| == |remaining| && kept + removed + |todo| == |rows|
        decreases todo
      {
        var hash :| hash in todo;
        var key := ParseKey(hash);
        if key.Err? {
          return Err(InvalidStoredKey(hash));
        }
        if key.value !in initial || key.value in referenced {
          kept := kept + 1;
        } else {
          removed := removed + 1;
          remaining := Delete(remaining, hash);
        }
        todo := todo - {hash};
      }
      SweptKeys(rows, remaining, initial, referenced);
      SweptTable(rows, remaining, initial, referenced);
      SweptTally(rows, remaining, initial, referenced, kept, removed);
      rows := remaining;
      r := Ok(SweepReport(kept, removed));
    }
  }

  function Delete(rows: map<Text, Row>, hash: Text): (r: map<Text, Row>)
    requires hash in rows
    ensures |r| == |rows| - 1
  {
    var r := rows - {hash};
    assert r.Keys == rows.Keys - {hash};
    assert |r| == |r.Keys| && |rows| == |rows.Keys|;
    r
  }

  predicate DoomedHash(hash: Text, initial: set<VectorKey>, referenced: set<VectorKey>) {
    Parsed(hash).Ok? && Parsed(hash).value in initial && Parsed(hash).value !in referenced
  }

  function StoredKeys(rows: map<Text, Row>): set<VectorKey> {
    set h | h in rows && Parsed(h).Ok? :: Parsed(h).value
  }

  lemma SweptKeys(rows: map<Text, Row>, remaining: map<Text, Row>, initial: set<VectorKey>, referenced: set<VectorKey>)
    requires forall h :: h in remaining <==> h in rows && !DoomedHash(h, initial, referenced)
    ensures StoredKeys(remaining) == StoredKeys(rows) - Doomed(StoredKeys(rows), initial, referenced)
  {
    hide Parsed;
    forall k ensures k in StoredKeys(remaining) <==>
      k in StoredKeys(rows) - Doomed(StoredKeys(rows), initial, referenced) {
      if k in StoredKeys(rows) {
        var h :| h in rows && Parsed(h).Ok? && Parsed(h).value == k;
        forall g | g in rows && Parsed(g).Ok? && Parsed(g).value == k ensures g == h {
          HexIsCanonical(g);
          HexIsCanonical(h);
        }
      }
    }
  }

  /** The rows of the keys spelled in `texts`. */
  function Picked(rows: map<Text, Row>, keys: set<VectorKey>, texts: seq<Text>): map<VectorKey, Row> {
    map k | k in keys && PrintHex(k) in rows && PrintHex(k) in texts :: rows[PrintHex(k)]
  }

  lemma PickNone(rows: map<Text, Row>, keys: set<VectorKey>)
    ensures Picked(rows, keys, []) == map[]
  {
  }

  lemma PickMore(rows: map<Text, Row>, keys: set<VectorKey>, texts: seq<Text>, key: VectorKey)
    requires key in keys && PrintHex(key) !in texts
    ensures key !in Picked(rows, keys, texts)
    ensures Picked(rows, keys, texts + [PrintHex(key)])
         == if PrintHex(key) in rows then Picked(rows, keys, texts)[key := rows[PrintHex(key)]] else Picked(rows,
           keys, texts)
  {
    hide PrintHex;
    OnlySpelling(keys, key);
  }

  lemma PickBoth(rows: map<Text, Row>, keys: set<VectorKey>, first: seq<Text>, second: seq<Text>)
    ensures Picked(rows, keys, first + second) == Picked(rows, keys, first) + Picked(rows, keys, second)
  {
    hide PrintHex;
  }

  lemma PickedKeys(rows: map<Text, Row>, keys: set<VectorKey>, texts: seq<Text>)
    ensures forall k :: k in Picked(rows, keys, texts) ==> PrintHex(k) in texts
  {
    hide PrintHex;
  }

  lemma PickedAll(rows: map<Text, Row>, requested: seq<VectorKey>, wanted: set<VectorKey>)
    requires wanted == set k | k in requested
    ensures Picked(rows, wanted, PrintAll(requested)) == Present(rows, requested)
  {
    hide PrintHex;
    SpellingsAreListed(requested);
  }

  function Present(rows: map<Text, Row>, requested: seq<VectorKey>): map<VectorKey, Row> {
    map k | k in requested && PrintHex(k) in rows :: rows[PrintHex(k)]
  }

  lemma SpellingsAreListed(keys: seq<VectorKey>)
    ensures forall k :: k in keys ==> PrintHex(k) in PrintAll(keys)
  {
    hide PrintHex;
    forall k | k in keys ensures PrintHex(k) in PrintAll(keys) {
      var j :| 0 <= j < |keys| && keys[j] == k;
      assert PrintAll(keys)[j] == PrintHex(k);
    }
  }

  /** The requested keys that have no row. */
  function Absent(rows: map<Text, Row>, requested: seq<VectorKey>): set<VectorKey> {
    set k | k in requested && PrintHex(k) !in rows
  }

  predicate Distinct(texts: seq<Text>) {
    forall i, j :: 0 <= i < j < |texts| ==> texts[i] != texts[j]
  }

  predicate Spelled(keys: set<VectorKey>, text: Text) {
    exists k :: k in keys && PrintHex(k) == text
  }

  lemma OnlySpelling(keys: set<VectorKey>, key: VectorKey)
    ensures forall k :: k in keys && PrintHex(k) == PrintHex(key) ==> k == key
  {
    hide PrintHex;
    forall k | k in keys && PrintHex(k) == PrintHex(key) ensures k == key {
      PrintIsInjective(k, key);
    }
  }

  lemma SpellingsAreDistinct(keys: seq<VectorKey>)
    requires forall i, j :: 0 <= i < j < |keys| ==> keys[i] != keys[j]
    ensures Distinct(PrintAll(keys))
  {
    hide PrintHex;
    forall i, j | 0 <= i < j < |keys| ensures PrintAll(keys)[i] != PrintAll(keys)[j] {
      if PrintHex(keys[i]) == PrintHex(keys[j]) {
        PrintIsInjective(keys[i], keys[j]);
      }
    }
  }

  lemma BatchIsSpelled(requested: seq<VectorKey>, wanted: set<VectorKey>, batches: seq<seq<Text>>, b: nat)
    requires wanted == set k | k in requested
    requires b < |batches| && Flatten(batches) == PrintAll(requested) && Distinct(Flatten(batches))
    ensures forall i :: 0 <= i < |batches[b]| ==> Spelled(wanted, batches[b][i])
  {
    BatchIsFresh(batches, b);
    hide Flatten, PrintHex;
    forall i | 0 <= i < |batches[b]| ensures Spelled(wanted, batches[b][i]) {
      var j :| 0 <= j < |requested| && PrintAll(requested)[j] == batches[b][i];
      assert requested[j] in wanted;
    }
  }

  /** A middle part of a list without repetitions. */
  lemma PartIsFresh(whole: seq<Text>, before: seq<Text>, part: seq<Text>)
    requires Distinct(whole) && before + part <= whole
    ensures Distinct(part)
    ensures forall i :: 0 <= i < |part| ==> part[i] in whole && part[i] !in before
  {
    assert forall i :: 0 <= i < |part| ==> part[i] == whole[|before| + i];
    assert forall j :: 0 <= j < |before| ==> before[j] == whole[j];
  }

  /** In a list without repetitions each batch is new, and is part of the whole. */
  lemma BatchIsFresh(batches: seq<seq<Text>>, b: nat)
    requires b < |batches| && Distinct(Flatten(batches))
    ensures Distinct(batches[b])
    ensures forall i :: 0 <= i < |batches[b]| ==>
      batches[b][i] in Flatten(batches) && batches[b][i] !in Flatten(batches[..b])
    ensures Flatten(batches[..b + 1]) == Flatten(batches[..b]) + batches[b]
  {
    FlattenPrefix(batches, b + 1);
    assert batches[..b + 1][..b] == batches[..b];
    assert Flatten(batches[..b + 1]) == Flatten(batches[..b]) + batches[b];
    hide Flatten, Distinct;
    PartIsFresh(Flatten(batches), Flatten(batches[..b]), batches[b]);
  }

  lemma {:induction false} FlattenPrefix(batches: seq<seq<Text>>, n: nat)
    requires n <= |batches|
    ensures Flatten(batches[..n]) <= Flatten(batches)
    decreases |batches|
  {
    if n == |batches| {
      assert batches[..n] == batches;
    } else {
      var init := batches[..|batches| - 1];
      FlattenPrefix(init, n);
      assert init[..n] == batches[..n];
    }
  }

  function RowOf(item: VectorInsert): Row {
    Row(item.signature, item.dimensions, item.bytes)
  }

  // ----- the table as a map from keys -------------------------------------------------------------------

  /** The rows by key: what the rest of the program sees of the table. */
  ghost function Table(rows: map<Text, Row>): map<VectorKey, Row> {
    map k | k in StoredKeys(rows) && PrintHex(k) in rows :: rows[PrintHex(k)]
  }

  lemma InTable(rows: map<Text, Row>, key: VectorKey)
    ensures key in Table(rows) <==> PrintHex(key) in rows
    ensures key in StoredKeys(rows) <==> PrintHex(key) in rows
    ensures key in Table(rows) ==> Table(rows)[key] == rows[PrintHex(key)]
  {
    HexRoundTrip(key);
    hide PrintHex, Parsed;
    if key in StoredKeys(rows) {
      var h :| h in rows && Parsed(h).Ok? && Parsed(h).value == key;
      HexIsCanonical(h);
    }
  }

  lemma TableKeys(rows: map<Text, Row>)
    ensures Table(rows).Keys == StoredKeys(rows)
  {
    hide PrintHex, Parsed, Table, StoredKeys;
    forall k ensures k in Table(rows) <==> k in StoredKeys(rows) {
      InTable(rows, k);
    }
  }

  /** The records of a batch by key. */
  ghost function RowsOf(input: seq<VectorInsert>): map<VectorKey, Row> {
    if input == [] then map[]
    else
      var last := input[|input| - 1];
      RowsOf(input[..|input| - 1])[last.key := RowOf(last)]
  }

  /** The row of a key comes from a record of that key. */
  predicate FromRecord(input: seq<VectorInsert>, key: VectorKey, row: Row) {
    exists i :: 0 <= i < |input| && input[i].key == key && row == RowOf(input[i])
  }

  lemma {:induction false} RowsOfHolds(input: seq<VectorInsert>)
    ensures forall i :: 0 <= i < |input| ==> input[i].key in RowsOf(input)
    ensures forall k :: k in RowsOf(input) ==> FromRecord(input, k, RowsOf(input)[k])
  {
    if input != [] {
      var n := |input| - 1;
      var init := input[..n];
      RowsOfHolds(init);
      hide RowOf;
      forall k | k in RowsOf(input) ensures FromRecord(input, k, RowsOf(input)[k]) {
        if k == input[n].key {
          assert RowsOf(input)[k] == RowOf(input[n]);
        } else {
          assert FromRecord(init, k, RowsOf(init)[k]);
          var i :| 0 <= i < |init| && init[i].key == k && RowsOf(init)[k] == RowOf(init[i]);
          assert input[i] == init[i];
        }
      }
    }
  }

  /** What an accepted batch does to the stored rows. */
  ghost predicate Adds(before: map<Text, Row>, after: map<Text, Row>, input: seq<VectorInsert>) {
    && (forall h :: h in before ==> h in after && after[h] == before[h])
    && (forall i :: 0 <= i < |input| ==>
          PrintHex(input[i].key) in after && after[PrintHex(input[i].key)] == RowOf(input[i]))
    && (forall h :: h in after && h !in before ==> exists i :: 0 <= i < |input| && PrintHex(input[i].key) == h)
  }

  lemma StagedAdds(before: map<Text, Row>, after: map<Text, Row>, prepared: map<VectorKey, Row>,
                   input: seq<VectorInsert>)
    requires forall k :: k in prepared ==> exists i :: 0 <= i < |input| && input[i].key == k
    requires forall i :: 0 <= i < |input| ==> input[i].key in prepared && prepared[input[i].key] == RowOf(input[i])
    requires forall h :: h in after && h !in before ==> exists k :: k in prepared && PrintHex(k) == h
    requires forall h :: h in before ==> h in after && after[h] == before[h]
    requires forall k :: k in prepared ==> PrintHex(k) in after && after[PrintHex(k)] == prepared[k]
    ensures Adds(before, after, input)
  {
    hide PrintHex, RowOf;
    forall h | h in after && h !in before ensures exists i :: 0 <= i < |input| && PrintHex(input[i].key) == h {
      var k :| k in prepared && PrintHex(k) == h;
      var i :| 0 <= i < |input| && input[i].key == k;
      assert PrintHex(input[i].key) == h;
    }
  }

  lemma AddedRows(before: map<Text, Row>, after: map<Text, Row>, input: seq<VectorInsert>)
    requires Adds(before, after, input)
    ensures after.Keys == before.Keys + set i | 0 <= i < |input| :: PrintHex(input[i].key)
    ensures forall h :: h in before ==> after[h] == before[h]
    ensures forall i :: 0 <= i < |input| ==> after[PrintHex(input[i].key)] == RowOf(input[i])
  {
    hide PrintHex, RowOf;
  }

  lemma InsertedAt(before: map<Text, Row>, after: map<Text, Row>, input: seq<VectorInsert>, k: VectorKey)
    requires Adds(before, after, input)
    ensures var merged := InsertMissing(Table(before), RowsOf(input));
      && (k in Table(after) <==> k in merged)
      && (k in merged ==> Table(after)[k] == merged[k])
  {
    hide PrintHex, RowOf, RowsOf, Table, StoredKeys, Parsed;
    RowsOfHolds(input);
    InTable(before, k);
    InTable(after, k);
    var h := PrintHex(k);
    if h in after && h !in before {
      var i :| 0 <= i < |input| && PrintHex(input[i].key) == h;
      PrintIsInjective(input[i].key, k);
    }
    if k in RowsOf(input) {
      assert FromRecord(input, k, RowsOf(input)[k]);
    }
  }

  /** A batch that adds its records and changes no row adds their rows to the table. */
  lemma InsertedTable(before: map<Text, Row>, after: map<Text, Row>, input: seq<VectorInsert>)
    requires Adds(before, after, input)
    ensures Table(after) == InsertMissing(Table(before), RowsOf(input))
  {
    var merged := InsertMissing(Table(before), RowsOf(input));
    hide Adds, Table, InsertMissing, RowsOf;
    forall k ensures (k in Table(after) <==> k in merged) && (k in merged ==> Table(after)[k] == merged[k]) {
      InsertedAt(before, after, input, k);
    }
  }

  /** Rows whose hashes are keys are as many as the keys. */
  lemma {:induction false} EveryRowCounts(rows: map<Text, Row>)
    requires forall h :: h in rows ==> Parsed(h).Ok?
    ensures |StoredKeys(rows)| == |rows|
    decreases |rows|
  {
    hide Parsed, PrintHex;
    if rows.Keys == {} {
      assert rows == map[] && StoredKeys(rows) == {};
    } else {
      var h :| h in rows.Keys;
      var rest := rows - {h};
      assert rows.Keys == rest.Keys + {h} && |rows.Keys| == |rows| && |rest.Keys| == |rest|;
      EveryRowCounts(rest);
      var key := Parsed(h).value;
      assert key !in StoredKeys(rest) by {
        forall g | g in rest ensures Parsed(g).value != key {
          HexIsCanonical(g);
          HexIsCanonical(h);
        }
      }
      assert StoredKeys(rows) == StoredKeys(rest) + {key};
    }
  }

  lemma SweptTable(rows: map<Text, Row>, remaining: map<Text, Row>, initial: set<VectorKey>, referenced: set<VectorKey>)
    requires forall h :: h in remaining <==> h in rows && !DoomedHash(h, initial, referenced)
    requires forall h :: h in remaining ==> remaining[h] == rows[h]
    ensures Table(remaining) == Table(rows) - Doomed(Table(rows).Keys, initial, referenced)
  {
    hide *;
    SweptKeys(rows, remaining, initial, referenced);
    TableKeys(rows);
    TableKeys(remaining);
    var doomed := Doomed(Table(rows).Keys, initial, referenced);
    forall k | k in Table(remaining) ensures k in Table(rows) && Table(remaining)[k] == Table(rows)[k] {
      InTable(remaining, k);
      InTable(rows, k);
    }
    assert Table(remaining).Keys == (Table(rows) - doomed).Keys;
  }

  lemma SweptTally(rows: map<Text, Row>, remaining: map<Text, Row>, initial: set<VectorKey>, referenced: set<VectorKey>,
                   kept: nat, removed: nat)
    requires forall h :: h in rows ==> Parsed(h).Ok?
    requires forall h :: h in remaining <==> h in rows && !DoomedHash(h, initial, referenced)
    requires kept == |remaining| && kept + removed == |rows|
    ensures SweepReport(kept, removed) == Tally(Table(rows).Keys, Doomed(Table(rows).Keys, initial, referenced))
  {
    hide *;
    SweptKeys(rows, remaining, initial, referenced);
    EveryRowCounts(rows);
    EveryRowCounts(remaining);
    TableKeys(rows);
    TallyBySizes(Table(rows).Keys, initial, referenced, kept, removed);
  }

  lemma TallyBySizes(stored: set<VectorKey>, initial: set<VectorKey>, referenced: set<VectorKey>,
                     kept: nat, removed: nat)
    requires |stored| == kept + removed && |stored - Doomed(stored, initial, referenced)| == kept
    ensures SweepReport(kept, removed) == Tally(stored, Doomed(stored, initial, referenced))
  {
    var doomed := Doomed(stored, initial, referenced);
    assert stored == (stored - doomed) + doomed;
  }
}
