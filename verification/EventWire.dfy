/** The bytes of an event: how the program lays them out, and how the decoder reads them back. */
module EventWire {
  import opened Wrappers
  import opened Bytes
  import opened NumberTheory
  import opened Receipts
  import Base58

  /** What a field of an event is on the wire. */
  datatype Kind = KeyField | MaybeKeyField | HashField | AmountField | CountField | TimeField | ChoiceField(size: nat)

  /** A field as the program holds it. */
  datatype Raw =
    | RawKey(key: seq<Byte>)
    | RawMaybeKey(maybe: Option<seq<Byte>>)
    | RawHash(digest: seq<Byte>)
    | RawAmount(amount: nat)
    | RawCount(count: nat)
    | RawTime(time: int)
    | RawChoice(choice: nat)

  /** A field as the decoder shows it. */
  datatype Shown =
    | ShownKey(address: string)
    | ShownMaybeKey(optional: Option<string>)
    | ShownHash(hex: string)
    | ShownAmount(amount: nat)
    | ShownCount(count: nat)
    | ShownTime(time: int)
    | ShownChoice(choice: nat)

  datatype ReadError = Truncated | UnsafeInteger | InvalidTag | UnknownIndex | TrailingBytes

  datatype Decoded = NotOurs | Corrupt(error: ReadError) | Decoded(name: ReceiptAction, fields: seq<Shown>)

  const TWO_TO_64 := 0x1_0000_0000_0000_0000
  const TWO_TO_63 := 0x8000_0000_0000_0000
  const MAX_SAFE := 0x1F_FFFF_FFFF_FFFF

  // ---- Little-endian numbers and hexadecimal text ----

  function BytesOf(n: nat, size: nat): (bytes: seq<Byte>)
    ensures |bytes| == size
  {
    if size == 0 then [] else [n % 256] + BytesOf(n / 256, size - 1)
  }

  lemma {:induction false} NumberOfBytes(n: nat, size: nat)
    requires n < Pow(256, size)
    ensures LittleEndian(BytesOf(n, size)) == n
  {
    if size > 0 {
      NumberOfBytes(n / 256, size - 1);
    }
  }

  lemma {:induction false} BytesOfNumber(bytes: seq<Byte>)
    ensures BytesOf(LittleEndian(bytes), |bytes|) == bytes && LittleEndian(bytes) < Pow(256, |bytes|)
  {
    if bytes != [] {
      BytesOfNumber(bytes[1..]);
    }
  }

  const HEX := "0123456789abcdef"

  function HexText(bytes: seq<Byte>): (text: string)
    ensures |text| == 2 * |bytes|
  {
    if bytes == [] then "" else [HEX[bytes[0] / 16], HEX[bytes[0] % 16]] + HexText(bytes[1..])
  }

  lemma {:induction false} HexIsInjective(a: seq<Byte>, b: seq<Byte>)
    requires HexText(a) == HexText(b)
    ensures a == b
  {
    if a != [] {
      assert |a| == |b|;
      var s, t := HexText(a), HexText(b);
      assert s[0] == HEX[a[0] / 16] && s[1] == HEX[a[0] % 16] && s[2..] == HexText(a[1..]);
      assert t[0] == HEX[b[0] / 16] && t[1] == HEX[b[0] % 16] && t[2..] == HexText(b[1..]);
      HexDigitsDiffer(a[0] / 16, b[0] / 16);
      HexDigitsDiffer(a[0] % 16, b[0] % 16);
      HexIsInjective(a[1..], b[1..]);
      assert a == [a[0]] + a[1..] && b == [b[0]] + b[1..];
    }
  }

  lemma HexDigitsDiffer(d: nat, e: nat)
    requires d < 16 && e < 16 && HEX[d] == HEX[e]
    ensures d == e
  {
  }

  // ---- One field ----

  predicate Fits(raw: Raw, kind: Kind) {
    match raw
    case RawKey(key) => kind == KeyField && |key| == 32
    case RawMaybeKey(maybe) => kind == MaybeKeyField && (maybe.Some? ==> |maybe.value| == 32)
    case RawHash(digest) => kind == HashField && |digest| == 32
    case RawAmount(n) => kind == AmountField && n < TWO_TO_64
    case RawCount(n) => kind == CountField && n < 0x1_0000_0000
    case RawTime(t) => kind == TimeField && -TWO_TO_63 <= t < TWO_TO_63
    case RawChoice(i) => kind.ChoiceField? && i < kind.size && i < 256
  }

  /** A JavaScript number holds every integer only up to 2^53. */
  predicate Safe(raw: Raw) {
    raw.RawTime? ==> -MAX_SAFE <= raw.time <= MAX_SAFE
  }

  /** Borsh: fixed-size fields as they are, an option behind one tag byte, an enum as its index. */
  function Borsh(raw: Raw): seq<Byte> {
    match raw
    case RawKey(key) => key
    case RawMaybeKey(None) => [0]
    case RawMaybeKey(Some(key)) => [1] + key
    case RawHash(digest) => digest
    case RawAmount(n) => BytesOf(n, 8)
    case RawCount(n) => BytesOf(n, 4)
    case RawTime(t) => BytesOf(Unsigned(t), 8)
    case RawChoice(i) => BytesOf(i, 1)
  }

  /** Two's complement. */
  function Unsigned(t: int): nat {
    if t < 0 && -TWO_TO_63 <= t then t + TWO_TO_64 else if t < 0 then 0 else t
  }

  function Signed(n: nat): int {
    if n < TWO_TO_63 then n else n - TWO_TO_64
  }

  function Show(raw: Raw): Shown {
    match raw
    case RawKey(key) => ShownKey(Base58.Encoded(key))
    case RawMaybeKey(None) => ShownMaybeKey(None)
    case RawMaybeKey(Some(key)) => ShownMaybeKey(Some(Base58.Encoded(key)))
    case RawHash(digest) => ShownHash(HexText(digest))
    case RawAmount(n) => ShownAmount(n)
    case RawCount(n) => ShownCount(n)
    case RawTime(t) => ShownTime(t)
    case RawChoice(i) => ShownChoice(i)
  }

  type Reading = Result<(Shown, nat), ReadError>

  /** What reading one field off the front of the bytes yields, and how many it takes. */
  function Read(kind: Kind, bytes: seq<Byte>): Reading {
    match kind
    case KeyField => if |bytes| < 32 then Err(Truncated) else Ok((ShownKey(Base58.Encoded(bytes[..32])), 32))
    case HashField => if |bytes| < 32 then Err(Truncated) else Ok((ShownHash(HexText(bytes[..32])), 32))
    case MaybeKeyField =>
      if |bytes| < 1 then Err(Truncated)
      else if bytes[0] == 0 then Ok((ShownMaybeKey(None), 1))
      else if bytes[0] != 1 then Err(InvalidTag)
      else if |bytes| < 33 then Err(Truncated)
      else Ok((ShownMaybeKey(Some(Base58.Encoded(bytes[1..33]))), 33))
    case AmountField => if |bytes| < 8 then Err(Truncated) else Ok((ShownAmount(LittleEndian(bytes[..8])), 8))
    case CountField => if |bytes| < 4 then Err(Truncated) else Ok((ShownCount(LittleEndian(bytes[..4])), 4))
    case TimeField =>
      if |bytes| < 8 then Err(Truncated)
      else
        var time := Signed(LittleEndian(bytes[..8]));
        if time < -MAX_SAFE || time > MAX_SAFE then Err(UnsafeInteger) else Ok((ShownTime(time), 8))
    case ChoiceField(size) =>
      if |bytes| < 1 then Err(Truncated)
      else if bytes[0] >= size then Err(UnknownIndex)
      else Ok((ShownChoice(bytes[0]), 1))
  }

  lemma Widths()
    ensures Pow(256, 1) == 256 && Pow(256, 4) == 0x1_0000_0000 && Pow(256, 8) == TWO_TO_64
  {
    assert Pow(256, 2) == 0x1_0000;
    assert Pow(256, 3) == 0x100_0000;
    assert Pow(256, 5) == 0x100_0000_0000;
    assert Pow(256, 6) == 0x1_0000_0000_0000;
    assert Pow(256, 7) == 0x100_0000_0000_0000;
  }

  lemma OneByte(i: nat)
    requires i < 256
    ensures BytesOf(i, 1) == [i]
  {
    assert BytesOf(i, 1) == [i % 256] + BytesOf(i / 256, 0);
  }

  /** Reading a field that was written gives it back, whatever follows; only a time beyond safe range is refused. */
  lemma ReadAfterWrite(raw: Raw, kind: Kind, rest: seq<Byte>)
    requires Fits(raw, kind)
    ensures
      var reading := Read(kind, Borsh(raw) + rest);
      if Safe(raw) then reading == Ok((Show(raw), |Borsh(raw)|)) else reading == Err(UnsafeInteger)
  {
    var bytes := Borsh(raw) + rest;
    assert bytes[..|Borsh(raw)|] == Borsh(raw);
    Widths();
    hide Base58.Encoded, HexText;
    match raw {
      case RawKey(key) =>
      case RawMaybeKey(maybe) =>
        if maybe.Some? {
          assert bytes[1..33] == maybe.value;
        }
      case RawHash(digest) =>
      case RawAmount(n) => NumberOfBytes(n, 8);
      case RawCount(n) => NumberOfBytes(n, 4);
      case RawTime(t) => NumberOfBytes(Unsigned(t), 8);
      case RawChoice(i) => OneByte(i);
    }
  }

  /** Whatever can be read was written by some field, and it is exactly the bytes taken. */
  lemma WriteAfterRead(kind: Kind, bytes: seq<Byte>) returns (raw: Raw)
    requires Read(kind, bytes).Ok?
    ensures Fits(raw, kind) && Safe(raw) && Show(raw) == Read(kind, bytes).value.0
    ensures Read(kind, bytes).value.1 <= |bytes| && Borsh(raw) == bytes[..Read(kind, bytes).value.1]
  {
    Widths();
    hide Base58.Encoded, HexText;
    match kind {
      case KeyField => raw := RawKey(bytes[..32]);
      case HashField => raw := RawHash(bytes[..32]);
      case MaybeKeyField =>
        raw := RawMaybeKey(if bytes[0] == 0 then None else Some(bytes[1..33]));
        assert bytes[0] == 1 ==> bytes[..33] == [1] + bytes[1..33];
      case AmountField =>
        BytesOfNumber(bytes[..8]);
        raw := RawAmount(LittleEndian(bytes[..8]));
      case CountField =>
        BytesOfNumber(bytes[..4]);
        raw := RawCount(LittleEndian(bytes[..4]));
      case TimeField =>
        BytesOfNumber(bytes[..8]);
        raw := RawTime(Signed(LittleEndian(bytes[..8])));
      case ChoiceField(size) =>
        OneByte(bytes[0]);
        raw := RawChoice(bytes[0]);
    }
  }

  /** What is shown determines what was held. */
  lemma ShowIsInjective(raw: Raw, other: Raw, kind: Kind)
    requires Fits(raw, kind) && Fits(other, kind) && Show(raw) == Show(other)
    ensures raw == other
  {
    hide Base58.Encoded, HexText;
    match raw {
      case RawKey(key) => EncodedIsInjective(key, other.key);
      case RawMaybeKey(maybe) =>
        if maybe.Some? {
          EncodedIsInjective(maybe.value, other.maybe.value);
        }
      case RawHash(digest) => HexIsInjective(digest, other.digest);
      case _ =>
    }
  }

  lemma EncodedIsInjective(a: seq<Byte>, b: seq<Byte>)
    requires Base58.Encoded(a) == Base58.Encoded(b)
    ensures a == b
  {
    Base58.DecodeAfterEncode(a);
    Base58.DecodeAfterEncode(b);
  }

  // ---- The layouts ----

  const STATE := ChoiceField(7)
  const STEP := ChoiceField(4)

  /** The fields of each event, in the order the program's struct declares them. */
  function Layout(name: ReceiptAction): seq<Kind> {
    match name
    case AGREEMENT_OPENED =>
      [KeyField, AmountField, KeyField, KeyField, ChoiceField(6), KeyField, KeyField, AmountField, HashField, STATE,
       TimeField]
    case AGREEMENT_FUNDED =>
      [KeyField, KeyField, KeyField, AmountField, KeyField, KeyField, STATE, STATE, TimeField]
    case WORK_COMPLETED => [KeyField, KeyField, KeyField, KeyField, STATE, STATE, TimeField]
    case SETTLEMENT_EXECUTED =>
      [KeyField, KeyField, KeyField, AmountField, KeyField, KeyField, MaybeKeyField, STATE, STATE, TimeField]
    case PROOF_SUBMITTED =>
      [KeyField, KeyField, KeyField, KeyField, KeyField, KeyField, CountField, HashField, HashField, STATE, TimeField]
    case PROOF_APPROVED | PROOF_REJECTED =>
      [KeyField, KeyField, KeyField, KeyField, KeyField, KeyField, KeyField, CountField, STATE, TimeField]
    case AGREEMENT_ABANDONED => [KeyField, KeyField, KeyField, KeyField, STATE, STATE, TimeField]
    case DISPUTE_OPENED => [KeyField, KeyField, KeyField, KeyField, HashField, STATE, STATE, TimeField]
    case DISPUTE_RESOLVED =>
      [KeyField, KeyField, KeyField, KeyField, KeyField, ChoiceField(2), KeyField, STATE, TimeField]
    case REFUND_EXECUTED =>
      [KeyField, KeyField, KeyField, KeyField, AmountField, KeyField, KeyField, STATE, STATE, TimeField]
    case MILESTONE_CREATED =>
      [KeyField, KeyField, KeyField, KeyField, CountField, AmountField, HashField, STATE, TimeField]
    case MILESTONE_SUBMITTED | MILESTONE_APPROVED | MILESTONE_REJECTED =>
      [KeyField, KeyField, KeyField, KeyField, CountField, STEP, STEP, STATE, TimeField]
    case MILESTONE_SETTLED =>
      [KeyField, KeyField, KeyField, KeyField, CountField, AmountField, KeyField, MaybeKeyField, STEP, STEP, STATE,
       TimeField]
    case COUNTERPARTY_ASSIGNED => [KeyField, KeyField, KeyField, STATE, TimeField]
  }

  predicate FitsAll(raws: seq<Raw>, kinds: seq<Kind>) {
    |raws| == |kinds| && forall i :: 0 <= i < |raws| ==> Fits(raws[i], kinds[i])
  }

  predicate AllSafe(raws: seq<Raw>) {
    forall i :: 0 <= i < |raws| ==> Safe(raws[i])
  }

  function BorshAll(raws: seq<Raw>): seq<Byte> {
    if raws == [] then [] else Borsh(raws[0]) + BorshAll(raws[1..])
  }

  function ShowAll(raws: seq<Raw>): (shown: seq<Shown>)
    ensures |shown| == |raws| && forall i :: 0 <= i < |raws| ==> shown[i] == Show(raws[i])
  {
    seq(|raws|, i requires 0 <= i < |raws| => Show(raws[i]))
  }

  /** Reading the fields in order; nothing may be left over. */
  function ReadAll(kinds: seq<Kind>, bytes: seq<Byte>): Result<seq<Shown>, ReadError> {
    if kinds == [] then (if bytes == [] then Ok([]) else Err(TrailingBytes))
    else
      var first :- Read(kinds[0], bytes);
      TakesNoMore(kinds[0], bytes);
      var rest :- ReadAll(kinds[1..], bytes[first.1..]);
      Ok([first.0] + rest)
  }

  lemma TakesNoMore(kind: Kind, bytes: seq<Byte>)
    ensures Read(kind, bytes).Ok? ==> Read(kind, bytes).value.1 <= |bytes|
  {
  }

  lemma {:induction false} ReadAllAfterWrite(raws: seq<Raw>, kinds: seq<Kind>)
    requires FitsAll(raws, kinds)
    ensures
      var reading := ReadAll(kinds, BorshAll(raws));
      if AllSafe(raws) then reading == Ok(ShowAll(raws)) else reading == Err(UnsafeInteger)
  {
    hide Read, Borsh, Show, Fits, Safe;
    if raws != [] {
      var rest := BorshAll(raws[1..]);
      ReadAfterWrite(raws[0], kinds[0], rest);
      ReadAllAfterWrite(raws[1..], kinds[1..]);
      assert (Borsh(raws[0]) + rest)[|Borsh(raws[0])|..] == rest;
      assert AllSafe(raws) <==> Safe(raws[0]) && AllSafe(raws[1..]) by {
        assert forall i :: 0 < i < |raws| ==> raws[i] == raws[1..][i - 1];
      }
      assert ShowAll(raws) == [Show(raws[0])] + ShowAll(raws[1..]);
    }
  }

  lemma Nothing()
    ensures FitsAll([], []) && AllSafe([]) && ShowAll([]) == [] && BorshAll([]) == []
  {
  }

  lemma BorshAllOf(raws: seq<Raw>)
    requires raws != []
    ensures BorshAll(raws) == Borsh(raws[0]) + BorshAll(raws[1..])
  {
  }

  /** Putting one more field in front. */
  lemma OneFieldMore(first: Raw, rest: seq<Raw>, kinds: seq<Kind>)
    requires kinds != [] && Fits(first, kinds[0]) && Safe(first) && FitsAll(rest, kinds[1..]) && AllSafe(rest)
    ensures FitsAll([first] + rest, kinds) && AllSafe([first] + rest)
    ensures ShowAll([first] + rest) == [Show(first)] + ShowAll(rest)
    ensures BorshAll([first] + rest) == Borsh(first) + BorshAll(rest)
  {
    hide Borsh, Show, Fits, Safe, BorshAll;
    var raws := [first] + rest;
    assert raws[0] == first && raws[1..] == rest;
    assert BorshAll(raws) == Borsh(first) + BorshAll(rest) by {
      BorshAllOf(raws);
    }
    forall i | 0 <= i < |raws| ensures Fits(raws[i], kinds[i]) && Safe(raws[i]) {
      assert i > 0 ==> Fits(rest[i - 1], kinds[1..][i - 1]) && Safe(rest[i - 1]);
    }
  }

  lemma {:induction false} WriteAllAfterRead(kinds: seq<Kind>, bytes: seq<Byte>) returns (raws: seq<Raw>)
    requires ReadAll(kinds, bytes).Ok?
    ensures FitsAll(raws, kinds) && AllSafe(raws) && ShowAll(raws) == ReadAll(kinds, bytes).value
            && BorshAll(raws) == bytes
  {
    hide Read, Borsh, BorshAll, Show, ShowAll, Fits, FitsAll, Safe, AllSafe;
    Nothing();
    if kinds == [] {
      raws := [];
    } else {
      var n := Read(kinds[0], bytes).value.1;
      TakesNoMore(kinds[0], bytes);
      var first := WriteAfterRead(kinds[0], bytes);
      var rest := WriteAllAfterRead(kinds[1..], bytes[n..]);
      raws := [first] + rest;
      OneFieldMore(first, rest, kinds);
      assert bytes == bytes[..n] + bytes[n..];
    }
  }

  lemma ShowAllIsInjective(raws: seq<Raw>, others: seq<Raw>, kinds: seq<Kind>)
    requires FitsAll(raws, kinds) && FitsAll(others, kinds) && ShowAll(raws) == ShowAll(others)
    ensures raws == others
  {
    forall i | 0 <= i < |raws| ensures raws[i] == others[i] {
      assert ShowAll(raws)[i] == ShowAll(others)[i];
      ShowIsInjective(raws[i], others[i], kinds[i]);
    }
  }

  // ---- The frame ----

  /** The tag in front of every event an Anchor program emits through its own instruction. */
  const EVENT_IX_TAG: seq<Byte> := [0xe4, 0x45, 0xa5, 0x2e, 0x51, 0xcb, 0x9a, 0x1d]

  type Discriminators = ReceiptAction -> seq<Byte>

  /** Eight bytes for each event name, no two alike: what the digest of the name promises up to collisions. */
  ghost predicate AreDiscriminators(disc: Discriminators) {
    && (forall name :: |disc(name)| == 8)
    && (forall name, other :: disc(name) == disc(other) ==> name == other)
  }

  const NAMES: seq<ReceiptAction> := [
    AGREEMENT_OPENED, AGREEMENT_FUNDED, WORK_COMPLETED, SETTLEMENT_EXECUTED, PROOF_SUBMITTED, PROOF_APPROVED,
    PROOF_REJECTED, AGREEMENT_ABANDONED, DISPUTE_OPENED, DISPUTE_RESOLVED, REFUND_EXECUTED, MILESTONE_CREATED,
    MILESTONE_SUBMITTED, MILESTONE_APPROVED, MILESTONE_REJECTED, MILESTONE_SETTLED, COUNTERPARTY_ASSIGNED
  ]

  lemma EveryNameIsListed(name: ReceiptAction)
    ensures name in NAMES
  {
  }

  function FindName(disc: Discriminators, bytes: seq<Byte>, names: seq<ReceiptAction>): Option<ReceiptAction> {
    if names == [] then None
    else if disc(names[0]) == bytes then Some(names[0])
    else FindName(disc, bytes, names[1..])
  }

  lemma {:induction false} FindNameIs(disc: Discriminators, bytes: seq<Byte>, names: seq<ReceiptAction>)
    ensures FindName(disc, bytes, names).Some? ==> disc(FindName(disc, bytes, names).value) == bytes
    ensures FindName(disc, bytes, names).None? ==> forall name :: name in names ==> disc(name) != bytes
  {
    if names != [] {
      FindNameIs(disc, bytes, names[1..]);
    }
  }

  function DecodedData(disc: Discriminators, data: seq<Byte>): Decoded {
    if |data| < 16 || data[..8] != EVENT_IX_TAG then NotOurs
    else
      var name := FindName(disc, data[8..16], NAMES);
      if name.None? then NotOurs
      else
        match ReadAll(Layout(name.value), data[16..])
        case Ok(fields) => Decoded(name.value, fields)
        case Err(e) => Corrupt(e)
  }

  /** An event on the wire. */
  function Wire(disc: Discriminators, name: ReceiptAction, raws: seq<Raw>): seq<Byte> {
    EVENT_IX_TAG + disc(name) + BorshAll(raws)
  }

  /** Where the three parts of an event lie on the wire. */
  lemma FrameOf(disc: Discriminators, name: ReceiptAction, raws: seq<Raw>)
    requires AreDiscriminators(disc)
    ensures
      var data := Wire(disc, name, raws);
      |data| >= 16 && data[..8] == EVENT_IX_TAG && data[8..16] == disc(name) && data[16..] == BorshAll(raws)
  {
    hide BorshAll;
  }

  lemma EveryNameIsFound(disc: Discriminators, name: ReceiptAction)
    requires AreDiscriminators(disc)
    ensures FindName(disc, disc(name), NAMES) == Some(name)
  {
    hide FindName;
    FindNameIs(disc, disc(name), NAMES);
    EveryNameIsListed(name);
  }

  lemma DecodedDataIs(disc: Discriminators, data: seq<Byte>, name: ReceiptAction)
    requires |data| >= 16 && data[..8] == EVENT_IX_TAG && FindName(disc, data[8..16], NAMES) == Some(name)
    ensures
      DecodedData(disc, data)
      == match ReadAll(Layout(name), data[16..]) case Ok(fields) => Decoded(name, fields) case Err(e) => Corrupt(e)
  {
    hide FindName, ReadAll, Layout;
  }

  /**
   Decoding inverts the layout the program declares, for each of the seventeen
   events and all field values, except that a timestamp no JavaScript number can
   hold exactly is refused.
   */
  lemma DecodingInvertsLayout(disc: Discriminators, name: ReceiptAction, raws: seq<Raw>)
    requires AreDiscriminators(disc) && FitsAll(raws, Layout(name))
    ensures
      var decoded := DecodedData(disc, Wire(disc, name, raws));
      if AllSafe(raws) then decoded == Decoded(name, ShowAll(raws)) else decoded == Corrupt(UnsafeInteger)
  {
    hide *;
    var data := Wire(disc, name, raws);
    FrameOf(disc, name, raws);
    EveryNameIsFound(disc, name);
    ReadAllAfterWrite(raws, Layout(name));
    DecodedDataIs(disc, data, name);
  }

  /** What was decoded: the tag, the discriminator of its name, and fields that read as shown. */
  lemma PartsOf(disc: Discriminators, data: seq<Byte>)
    requires DecodedData(disc, data).Decoded?
    ensures
      var decoded := DecodedData(disc, data);
      && |data| >= 16
      && data == EVENT_IX_TAG + disc(decoded.name) + data[16..]
      && ReadAll(Layout(decoded.name), data[16..]) == Ok(decoded.fields)
  {
    hide FindName, ReadAll, Layout;
    FindNameIs(disc, data[8..16], NAMES);
    assert data == data[..8] + data[8..16] + data[16..];
  }

  /** Two pieces of data that decode to the same event are the same bytes. */
  lemma DecodingIsInjective(disc: Discriminators, data: seq<Byte>, other: seq<Byte>)
    requires AreDiscriminators(disc)
    requires DecodedData(disc, data).Decoded? && DecodedData(disc, data) == DecodedData(disc, other)
    ensures data == other
  {
    hide *;
    var name := DecodedData(disc, data).name;
    PartsOf(disc, data);
    PartsOf(disc, other);
    var raws := WriteAllAfterRead(Layout(name), data[16..]);
    var others := WriteAllAfterRead(Layout(name), other[16..]);
    ShowAllIsInjective(raws, others, Layout(name));
  }

  // ---- The reader ----

  /** Reads fields off the front of a byte string by moving an offset along it. */
  class BorshReader {
    const bytes: seq<Byte>
    var offset: nat

    predicate Valid()
      reads this
    {
      offset <= |bytes|
    }

    constructor (data: seq<Byte>)
      ensures Valid() && bytes == data && offset == 0
    {
      bytes := data;
      offset := 0;
    }

    function Rest(): seq<Byte>
      requires Valid()
      reads this
    {
      bytes[offset..]
    }

    method Take(length: nat) returns (r: Result<seq<Byte>, ReadError>)
      requires Valid()
      modifies this
      ensures Valid()
      ensures r.Ok? <==> length <= |old(Rest())|
      ensures r.Ok? ==> r.value == old(Rest())[..length] && Rest() == old(Rest())[length..]
      ensures r.Err? ==> r.error == Truncated && offset == old(offset)
    {
      if offset + length > |bytes| {
        return Err(Truncated);
      }
      var slice := bytes[offset..offset + length];
      offset := offset + length;
      return Ok(slice);
    }

    /** The next field, moving past it. */
    method Next(kind: Kind) returns (r: Result<Shown, ReadError>)
      requires Valid()
      modifies this
      ensures Valid()
      ensures r.Ok? <==> Read(kind, old(Rest())).Ok?
      ensures r.Ok? ==> Read(kind, old(Rest())) == Ok((r.value, |old(Rest())| - |Rest()|))
      ensures r.Ok? ==> |Rest()| <= |old(Rest())| && Rest() == old(Rest())[|old(Rest())| - |Rest()|..]
      ensures r.Err? ==> Read(kind, old(Rest())) == Err(r.error)
    {
      hide Base58.Encoded, HexText, LittleEndian;
      var size := match kind
                  case KeyField | HashField => 32
                  case AmountField | TimeField => 8
                  case CountField => 4
                  case MaybeKeyField | ChoiceField(_) => 1;
      var taken := Take(size);
      if taken.Err? {
        return Err(taken.error);
      }
      match kind {
        case KeyField => return Ok(ShownKey(Base58.Encoded(taken.value)));
        case HashField => return Ok(ShownHash(HexText(taken.value)));
        case AmountField => return Ok(ShownAmount(LittleEndian(taken.value)));
        case CountField => return Ok(ShownCount(LittleEndian(taken.value)));
        case TimeField =>
          var time := Signed(LittleEndian(taken.value));
          if time > MAX_SAFE || time < -MAX_SAFE {
            return Err(UnsafeInteger);
          }
          return Ok(ShownTime(time));
        case ChoiceField(choices) =>
          if taken.value[0] >= choices {
            return Err(UnknownIndex);
          }
          return Ok(ShownChoice(taken.value[0]));
        case MaybeKeyField =>
          if taken.value[0] == 0 {
            return Ok(ShownMaybeKey(None));
          }
          if taken.value[0] != 1 {
            return Err(InvalidTag);
          }
          ghost var tail := Rest();
          var key := Take(32);
          if key.Err? {
            return Err(key.error);
          }
          assert key.value == old(Rest())[1..33] by {
            assert tail == old(Rest())[1..];
            assert tail[..32] == old(Rest())[1..33];
          }
          assert Rest() == tail[32..] == old(Rest())[33..];
          return Ok(ShownMaybeKey(Some(Base58.Encoded(key.value))));
      }
    }
  }

  lemma ReadOnePlus(kinds: seq<Kind>, k: nat, bytes: seq<Byte>)
    requires k < |kinds|
    ensures Read(kinds[k], bytes).Err? ==> ReadAll(kinds[k..], bytes) == Err(Read(kinds[k], bytes).error)
    ensures Read(kinds[k], bytes).Ok? ==> Read(kinds[k], bytes).value.1 <= |bytes|
    ensures Read(kinds[k], bytes).Ok? ==>
              var rest := ReadAll(kinds[k + 1..], bytes[Read(kinds[k], bytes).value.1..]);
              ReadAll(kinds[k..], bytes)
              == if rest.Err? then Err(rest.error) else Ok([Read(kinds[k], bytes).value.0] + rest.value)
  {
    TakesNoMore(kinds[k], bytes);
    assert kinds[k..][1..] == kinds[k + 1..];
    hide Read;
  }

  /** What is already read, in front of what is still to come. */
  function After(fields: seq<Shown>, rest: Result<seq<Shown>, ReadError>): Result<seq<Shown>, ReadError> {
    match rest
    case Ok(more) => Ok(fields + more)
    case Err(e) => Err(e)
  }

  lemma AfterNothing(rest: Result<seq<Shown>, ReadError>)
    ensures After([], rest) == rest
  {
    assert rest.Ok? ==> [] + rest.value == rest.value;
  }

  lemma AfterOneMore(fields: seq<Shown>, field: Shown, rest: Result<seq<Shown>, ReadError>)
    ensures After(fields + [field], rest) == After(fields, if rest.Err? then rest else Ok([field] + rest.value))
  {
    assert rest.Ok? ==> (fields + [field]) + rest.value == fields + ([field] + rest.value);
  }

  /** One step of the loop: what reading one more field does to the outcome. */
  lemma OneMoreField(kinds: seq<Kind>, k: nat, bytes: seq<Byte>, fields: seq<Shown>)
    requires k < |kinds|
    ensures
      var next := Read(kinds[k], bytes);
      var whole := After(fields, ReadAll(kinds[k..], bytes));
      if next.Err? then whole == Err(next.error)
      else
        && next.value.1 <= |bytes|
        && whole == After(fields + [next.value.0], ReadAll(kinds[k + 1..], bytes[next.value.1..]))
  {
    ReadOnePlus(kinds, k, bytes);
    hide Read, ReadAll;
    if Read(kinds[k], bytes).Ok? {
      var next := Read(kinds[k], bytes).value;
      AfterOneMore(fields, next.0, ReadAll(kinds[k + 1..], bytes[next.1..]));
    }
  }

  /** With no field left to read, anything left over is an error. */
  lemma NoFieldLeft(bytes: seq<Byte>, fields: seq<Shown>)
    ensures After(fields, ReadAll([], bytes)) == if bytes == [] then Ok(fields) else Err(TrailingBytes)
  {
    assert fields + [] == fields;
  }

  method DecodeEscrowEventData(disc: Discriminators, data: seq<Byte>) returns (r: Decoded)
    ensures r == DecodedData(disc, data)
  {
    if |data| < 16 || data[..8] != EVENT_IX_TAG {
      return NotOurs;
    }
    var name := FindName(disc, data[8..16], NAMES);
    if name.None? {
      return NotOurs;
    }
    DecodedDataIs(disc, data, name.value);
    var kinds := Layout(name.value);
    var read := ReadFields(kinds, data[16..]);
    match read {
      case Ok(fields) => r := Decoded(name.value, fields);
      case Err(e) => r := Corrupt(e);
    }
  }

  /** The fields one after another, and then the demand that nothing is left. */
  method ReadFields(kinds: seq<Kind>, bytes: seq<Byte>) returns (r: Result<seq<Shown>, ReadError>)
    ensures r == ReadAll(kinds, bytes)
  {
    hide Read, ReadAll, After;
    var reader := new BorshReader(bytes);
    var fields: seq<Shown> := [];
    assert kinds[0..] == kinds && reader.Rest() == bytes;
    AfterNothing(ReadAll(kinds, bytes));
    for k := 0 to |kinds|
      invariant reader.Valid() && fresh(reader)
      invariant ReadAll(kinds, bytes) == After(fields, ReadAll(kinds[k..], reader.Rest()))
    {
      OneMoreField(kinds, k, reader.Rest(), fields);
      var field := reader.Next(kinds[k]);
      if field.Err? {
        return Err(field.error);
      }
      fields := fields + [field.value];
    }
    assert kinds[|kinds|..] == [];
    NoFieldLeft(reader.Rest(), fields);
    if reader.offset != |reader.bytes| {
      return Err(TrailingBytes);
    }
    return Ok(fields);
  }
}
