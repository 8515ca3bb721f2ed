/** The CDMA SMS parcel: `responseCdmaSms` writes it, `constructCdmaSms` reads it. */
module CdmaParcel {
  import opened Wrappers
  import opened Bytes

  /** A 32-bit signed integer, which is also what the enumerations are. */
  type int32 = x: int | -0x8000_0000 <= x < 0x8000_0000

  const ADDRESS_MAX := 36
  const SUBADDRESS_MAX := 36
  const BEARER_DATA_MAX := 255

  datatype Message = Message(
    teleserviceId: int32,
    isServicePresent: byte,
    serviceCategory: int32,
    digitMode: int32,
    numberMode: int32,
    numberType: int32,
    numberPlan: int32,
    addressCount: byte,
    address: seq<byte>,
    subaddressType: int32,
    odd: byte,
    subaddressCount: byte,
    subaddress: seq<byte>,
    bearerLen: int32,
    bearer: seq<byte>
  )

  /** The three arrays have the sizes of the C structure. */
  predicate Sized(m: Message) {
    |m.address| == ADDRESS_MAX && |m.subaddress| == SUBADDRESS_MAX && |m.bearer| == BEARER_DATA_MAX
  }

  /** `MIN` of a count and a limit, and no turn of the loop for a negative count. */
  function Clip(count: int, limit: nat): nat { if count < 0 then 0 else if count < limit then count else limit }

  function ClipArray(a: seq<byte>, n: nat): (r: seq<byte>)
    requires n <= |a|
    ensures |r| == |a|
  {
    a[..n] + Zeros(|a| - n)
  }

  /** The message with the array elements behind the clipped counts zeroed. */
  function Normal(m: Message): Message
    requires Sized(m)
  {
    m.(address := ClipArray(m.address, Clip(m.addressCount, ADDRESS_MAX)),
       subaddress := ClipArray(m.subaddress, Clip(m.subaddressCount, SUBADDRESS_MAX)),
       bearer := ClipArray(m.bearer, Clip(m.bearerLen, BEARER_DATA_MAX)))
  }

  // ---- words ----

  /** A parcel holds 4-byte words: an integer in little-endian order, or a byte padded with zeros. */
  type Word = seq<byte>

  function IntWord(v: int32): (w: Word)
    ensures |w| == 4
  {
    var u := if v < 0 then v + U32 else v;
    [u % 256, u / 256 % 256, u / 0x1_0000 % 256, u / 0x100_0000]
  }

  function WordInt(w: Word): int32
    requires |w| == 4
  {
    var u := w[0] as int + 256 * (w[1] as int) + 0x1_0000 * (w[2] as int) + 0x100_0000 * (w[3] as int);
    if u >= 0x8000_0000 then u - U32 else u
  }

  lemma WordIntRoundTrip(v: int32)
    ensures WordInt(IntWord(v)) == v
  {
    var u := if v < 0 then v + U32 else v;
    var a := u / 256;
    var b := a / 256;
    assert u / 0x1_0000 == b && u / 0x100_0000 == b / 256;
    assert u == u % 256 + 256 * (a % 256 + 256 * (b % 256 + 256 * (b / 256)));
  }

  /** An integer stands in a word with its lowest byte first, and a negative one as itself plus 2^32. */
  lemma LowestFirst(v: int32)
    ensures var w := IntWord(v);
            w[0] as int + 0x100 * (w[1] as int) + 0x1_0000 * (w[2] as int) + 0x100_0000 * (w[3] as int)
            == if v < 0 then v + 0x1_0000_0000 else v
  {
    var u := if v < 0 then v + U32 else v;
    var a := u / 256;
    var b := a / 256;
    assert u / 0x1_0000 == b && u / 0x100_0000 == b / 256;
    assert u == u % 256 + 256 * (a % 256 + 256 * (b % 256 + 256 * (b / 256)));
  }

  function ByteWord(b: byte): (w: Word)
    ensures |w| == 4
  {
    [b, 0, 0, 0]
  }

  function ByteWords(a: seq<byte>): (ws: seq<Word>)
    ensures |ws| == |a|
    ensures forall i :: 0 <= i < |a| ==> ws[i] == ByteWord(a[i])
  {
    seq(|a|, i requires 0 <= i < |a| => ByteWord(a[i]))
  }

  /** The parcel of a message, word by word, in four parts. */
  function Head(m: Message): seq<Word> {
    [IntWord(m.teleserviceId), ByteWord(m.isServicePresent), IntWord(m.serviceCategory), IntWord(m.digitMode),
     IntWord(m.numberMode), IntWord(m.numberType), IntWord(m.numberPlan), ByteWord(m.addressCount)]
  }

  function AddressWords(m: Message): seq<Word>
    requires Sized(m)
  {
    ByteWords(m.address[..Clip(m.addressCount, ADDRESS_MAX)])
  }

  function Middle(m: Message): seq<Word> {
    [IntWord(m.subaddressType), ByteWord(m.odd), ByteWord(m.subaddressCount)]
  }

  function SubaddressWords(m: Message): seq<Word>
    requires Sized(m)
  {
    ByteWords(m.subaddress[..Clip(m.subaddressCount, SUBADDRESS_MAX)])
  }

  function BearerWords(m: Message): seq<Word>
    requires Sized(m)
  {
    ByteWords(m.bearer[..Clip(m.bearerLen, BEARER_DATA_MAX)])
  }

  function Words(m: Message): seq<Word>
    requires Sized(m)
  {
    Head(m) + AddressWords(m) + Middle(m) + SubaddressWords(m) + [IntWord(m.bearerLen)] + BearerWords(m)
  }

  function Bytes4(ws: seq<Word>): seq<byte> {
    if ws == [] then [] else Bytes4(ws[..|ws| - 1]) + ws[|ws| - 1]
  }

  ghost predicate AllWords(ws: seq<Word>) {
    forall i :: 0 <= i < |ws| ==> |ws[i]| == 4
  }

  lemma {:induction false} Bytes4Length(ws: seq<Word>)
    requires AllWords(ws)
    ensures |Bytes4(ws)| == 4 * |ws|
  {
    if ws != [] { Bytes4Length(ws[..|ws| - 1]); }
  }

  lemma {:induction false} Bytes4At(ws: seq<Word>, j: nat)
    requires AllWords(ws) && j < |ws|
    ensures |Bytes4(ws)| == 4 * |ws| && Bytes4(ws)[4 * j..4 * j + 4] == ws[j]
  {
    var l := |ws| - 1;
    Bytes4Length(ws);
    Bytes4Length(ws[..l]);
    if j < l {
      Bytes4At(ws[..l], j);
      assert Bytes4(ws)[4 * j..4 * j + 4] == Bytes4(ws[..l])[4 * j..4 * j + 4];
    }
  }

  lemma {:induction false} Bytes4Append(a: seq<Word>, b: seq<Word>)
    ensures Bytes4(a + b) == Bytes4(a) + Bytes4(b)
  {
    if b == [] {
      assert a + b == a;
    } else {
      assert (a + b)[..|a + b| - 1] == a + b[..|b| - 1];
      Bytes4Append(a, b[..|b| - 1]);
    }
  }

  lemma Bytes4Step(ws: seq<Word>, i: nat)
    requires i < |ws|
    ensures Bytes4(ws[..i + 1]) == Bytes4(ws[..i]) + ws[i]
  {
    assert ws[..i + 1][..i] == ws[..i];
  }

  class Parcel {
    var data: seq<byte>
    var pos: nat

    constructor ()
      ensures data == [] && pos == 0
    {
      data, pos := [], 0;
    }

    method WriteInt32(v: int32)
      modifies this`data
      ensures data == old(data) + IntWord(v)
    {
      data := data + IntWord(v);
    }

    /** `write` of one byte, padded to four. */
    method WriteByte(b: byte)
      modifies this`data
      ensures data == old(data) + ByteWord(b)
    {
      data := data + ByteWord(b);
    }

    /** `readInt32`: with less than four bytes left it fails, stays where it is and leaves the
        destination as it was. */
    method ReadInt32(prev: int32) returns (ok: bool, v: int32)
      requires pos <= |data|
      modifies this`pos
      ensures ok <==> old(pos) + 4 <= |data|
      ensures ok ==> pos == old(pos) + 4 && v == WordInt(data[old(pos)..pos])
      ensures !ok ==> pos == old(pos) && v == prev
    {
      if pos + 4 <= |data| {
        ok, v := true, WordInt(data[pos..pos + 4]);
        pos := pos + 4;
      } else {
        ok, v := false, prev;
      }
    }

    /** `read` of one byte: it takes the padded four. */
    method ReadByte(prev: byte) returns (ok: bool, b: byte)
      requires pos <= |data|
      modifies this`pos
      ensures ok <==> old(pos) + 4 <= |data|
      ensures ok ==> pos == old(pos) + 4 && b == data[old(pos)]
      ensures !ok ==> pos == old(pos) && b == prev
    {
      if pos + 4 <= |data| {
        ok, b := true, data[pos];
        pos := pos + 4;
      } else {
        ok, b := false, prev;
      }
    }
  }

  // ---- the writer ----

  method WriteBytes(p: Parcel, a: seq<byte>, digitLimit: nat)
    requires digitLimit <= |a|
    modifies p`data
    ensures p.data == old(p.data) + Bytes4(ByteWords(a[..digitLimit]))
  {
    var digitCount := 0;
    while digitCount < digitLimit
      invariant 0 <= digitCount <= digitLimit
      invariant p.data == old(p.data) + Bytes4(ByteWords(a[..digitCount]))
    {
      p.WriteByte(a[digitCount]);
      assert ByteWords(a[..digitCount + 1])[..digitCount] == ByteWords(a[..digitCount]);
      digitCount := digitCount + 1;
    }
  }

  method WriteHead(p: Parcel, m: Message)
    modifies p`data
    ensures p.data == old(p.data) + Bytes4(Head(m))
  {
    p.WriteInt32(m.teleserviceId);
    p.WriteByte(m.isServicePresent);
    p.WriteInt32(m.serviceCategory);
    p.WriteInt32(m.digitMode);
    p.WriteInt32(m.numberMode);
    p.WriteInt32(m.numberType);
    p.WriteInt32(m.numberPlan);
    p.WriteByte(m.addressCount);
    HeadBytes(m);
  }

  lemma HeadBytes(m: Message)
    ensures Bytes4(Head(m)) == IntWord(m.teleserviceId) + ByteWord(m.isServicePresent) + IntWord(m.serviceCategory)
        + IntWord(m.digitMode) + IntWord(m.numberMode) + IntWord(m.numberType) + IntWord(m.numberPlan) + ByteWord(m.addressCount)
  {
    hide IntWord, ByteWord;
    var h := Head(m);
    assert h[..8] == h && Bytes4(h[..0]) == [];
    Bytes4Step(h, 0);
    Bytes4Step(h, 1);
    Bytes4Step(h, 2);
    Bytes4Step(h, 3);
    Bytes4Step(h, 4);
    Bytes4Step(h, 5);
    Bytes4Step(h, 6);
    Bytes4Step(h, 7);
  }

  /** The writes of `responseCdmaSms`: the words of the message. */
  method WriteMessage(p: Parcel, m: Message)
    requires Sized(m)
    modifies p`data
    ensures p.data == old(p.data) + Bytes4(Words(m))
  {
    hide IntWord, ByteWord, Bytes4, Head, Words;
    ghost var sum := Bytes4(Head(m));
    WriteHead(p, m);
    WriteBytes(p, m.address, Clip(m.addressCount, ADDRESS_MAX));
    sum := Extend(old(p.data), sum, Bytes4(AddressWords(m)));
    p.WriteInt32(m.subaddressType);
    sum := Extend(old(p.data), sum, IntWord(m.subaddressType));
    p.WriteByte(m.odd);
    sum := Extend(old(p.data), sum, ByteWord(m.odd));
    p.WriteByte(m.subaddressCount);
    sum := Extend(old(p.data), sum, ByteWord(m.subaddressCount));
    WriteBytes(p, m.subaddress, Clip(m.subaddressCount, SUBADDRESS_MAX));
    sum := Extend(old(p.data), sum, Bytes4(SubaddressWords(m)));
    p.WriteInt32(m.bearerLen);
    sum := Extend(old(p.data), sum, IntWord(m.bearerLen));
    WriteBytes(p, m.bearer, Clip(m.bearerLen, BEARER_DATA_MAX));
    sum := Extend(old(p.data), sum, Bytes4(BearerWords(m)));
    PartBytes(m);
  }

  const INVALID_RESPONSE := -1

  /** `responseCdmaSms`: a missing message, or one whose length is not the `size` of the structure, writes
      nothing; any other is written and 0 returned. */
  method ResponseCdmaSms(p: Parcel, response: Option<Message>, responselen: nat, size: nat) returns (ret: int)
    requires size > 0 && (response.Some? ==> Sized(response.value))
    modifies p`data
    ensures ret == if response.Some? && responselen == size then 0 else INVALID_RESPONSE
    ensures p.data == old(p.data) + if ret == 0 then Bytes4(Words(response.value)) else []
  {
    if response.None? && responselen != 0 { return INVALID_RESPONSE; }
    if responselen != size { return INVALID_RESPONSE; }
    WriteMessage(p, response.value);
    return 0;
  }

  /** Appending to what was appended before. */
  lemma Extend(start: seq<byte>, sum: seq<byte>, more: seq<byte>) returns (r: seq<byte>)
    ensures r == sum + more && start + sum + more == start + r
  {
    r := sum + more;
  }

  lemma PartBytes(m: Message)
    requires Sized(m)
    ensures Bytes4(Words(m)) == Bytes4(Head(m)) + Bytes4(AddressWords(m))
        + IntWord(m.subaddressType) + ByteWord(m.odd) + ByteWord(m.subaddressCount)
        + Bytes4(SubaddressWords(m)) + IntWord(m.bearerLen) + Bytes4(BearerWords(m))
  {
    MiddleBytes(m);
    Bytes4One(IntWord(m.bearerLen));
    hide IntWord, ByteWord, Head, Middle, AddressWords, SubaddressWords, BearerWords, Bytes4;
    var a := Head(m) + AddressWords(m);
    var b := a + Middle(m);
    var c := b + SubaddressWords(m);
    var d := c + [IntWord(m.bearerLen)];
    Bytes4Append(Head(m), AddressWords(m));
    Bytes4Append(a, Middle(m));
    Bytes4Append(b, SubaddressWords(m));
    Bytes4Append(c, [IntWord(m.bearerLen)]);
    Bytes4Append(d, BearerWords(m));
    Left3(Bytes4(a), IntWord(m.subaddressType), ByteWord(m.odd), ByteWord(m.subaddressCount));
  }

  lemma Left3(a: seq<byte>, x: seq<byte>, y: seq<byte>, z: seq<byte>)
    ensures a + (x + y + z) == a + x + y + z
  {
  }

  lemma Bytes4One(w: Word)
    ensures Bytes4([w]) == w
  {
    assert Bytes4([w][..0]) == [];
  }

  lemma MiddleBytes(m: Message)
    ensures Bytes4(Middle(m)) == IntWord(m.subaddressType) + ByteWord(m.odd) + ByteWord(m.subaddressCount)
  {
    hide IntWord, ByteWord;
    var h := Middle(m);
    assert h[..3] == h && Bytes4(h[..0]) == [];
    Bytes4Step(h, 0);
    Bytes4Step(h, 1);
    Bytes4Step(h, 2);
  }

  // ---- the reader ----

  /** From `start` on the data is the given words, as far as it goes. */
  ghost predicate Agrees(data: seq<byte>, start: nat, ws: seq<Word>) {
    && AllWords(ws)
    && forall k :: 0 <= k < |ws| && start + 4 * k + 4 <= |data| ==> data[start + 4 * k..start + 4 * k + 4] == ws[k]
  }

  /** How far the reader is: if the data agrees with the words, then as long as reads succeed it is
      behind word `j`, a read fails only for lack of data, and after a failed one no read can succeed. */
  ghost predicate Follows(p: Parcel, start: nat, ws: seq<Word>, j: nat, status: bool)
    reads p
  {
    && p.pos <= |p.data|
    && (Agrees(p.data, start, ws) ==>
          && (status ==> p.pos == start + 4 * j)
          && (!status ==> |p.data| - p.pos < 4)
          && (|p.data| >= start + 4 * |ws| ==> status))
  }

  method NextInt(p: Parcel, prev: int32, ghost start: nat, ghost ws: seq<Word>, ghost j: nat, ghost status: bool)
    returns (ok: bool, v: int32)
    requires Follows(p, start, ws, j, status)
    requires Agrees(p.data, start, ws) && status ==> j < |ws|
    modifies p`pos
    ensures Follows(p, start, ws, j + 1, ok)
    ensures Agrees(p.data, start, ws) && ok ==> status && v == WordInt(ws[j])
  {
    hide WordInt;
    ok, v := p.ReadInt32(prev);
  }

  method NextByte(p: Parcel, prev: byte, ghost start: nat, ghost ws: seq<Word>, ghost j: nat, ghost status: bool)
    returns (ok: bool, b: byte)
    requires Follows(p, start, ws, j, status)
    requires Agrees(p.data, start, ws) && status ==> j < |ws|
    modifies p`pos
    ensures Follows(p, start, ws, j + 1, ok)
    ensures Agrees(p.data, start, ws) && ok ==> status && b == ws[j][0]
  {
    ok, b := p.ReadByte(prev);
    if ok && Agrees(p.data, start, ws) {
      assert p.data[start + 4 * j..start + 4 * j + 4][0] == b;
    }
  }

  /** The words from `j` on start with the bytes of `x`. */
  ghost predicate BytesAt(ws: seq<Word>, j: nat, x: seq<byte>) {
    j + |x| <= |ws| && forall i :: 0 <= i < |x| ==> ws[j + i] == ByteWord(x[i])
  }

  /** A digit loop: the status is that of its last read, or the one before when it reads nothing. */
  method ReadDigits(p: Parcel, digits: array<byte>, digitLimit: int, status0: bool, ut0: byte,
                    ghost start: nat, ghost ws: seq<Word>, ghost j: nat, ghost x: seq<byte>)
    returns (status: bool, ut: byte)
    requires Follows(p, start, ws, j, status0) && digitLimit <= digits.Length
    requires Agrees(p.data, start, ws) && status0 ==> |x| == (if digitLimit < 0 then 0 else digitLimit) && BytesAt(ws, j, x)
    modifies p`pos, digits
    ensures Follows(p, start, ws, j + |x|, status)
    ensures Agrees(p.data, start, ws) && status ==> status0 && |x| <= digits.Length && digits[..|x|] == x
    ensures forall i :: 0 <= i < digits.Length && i >= digitLimit ==> digits[i] == old(digits[i])
  {
    status, ut := status0, ut0;
    var digitCount := 0;
    while digitCount < digitLimit
      invariant 0 <= digitCount && (digitCount <= digitLimit || digitCount == 0)
      invariant Follows(p, start, ws, j + digitCount, status)
      invariant Agrees(p.data, start, ws) && status ==> status0 && digitCount <= |x| && digits[..digitCount] == x[..digitCount]
      invariant forall i :: 0 <= i < digits.Length && i >= digitLimit ==> digits[i] == old(digits[i])
    {
      status, ut := NextByte(p, ut, start, ws, j + digitCount, status);
      digits[digitCount] := ut;
      digitCount := digitCount + 1;
    }
  }

  /** Where the parts of a message's parcel are. */
  lemma Layout(m: Message)
    requires Sized(m)
    ensures var ws, a, s, b := Words(m), m.address[..Clip(m.addressCount, ADDRESS_MAX)],
                               m.subaddress[..Clip(m.subaddressCount, SUBADDRESS_MAX)], m.bearer[..Clip(m.bearerLen, BEARER_DATA_MAX)];
            && AllWords(ws) && |ws| == 12 + |a| + |s| + |b|
            && ws[..8] == Head(m) && BytesAt(ws, 8, a)
            && ws[8 + |a|..][..3] == Middle(m) && BytesAt(ws, 11 + |a|, s)
            && ws[11 + |a| + |s|] == IntWord(m.bearerLen) && BytesAt(ws, 12 + |a| + |s|, b)
  {
    hide IntWord, ByteWord;
  }

  function AtMost(n: nat, limit: nat): nat { if n < limit then n else limit }

  /** The words of a parcel one by one, in the order in which they are written. */
  lemma FieldOrder(m: Message)
    requires Sized(m)
    ensures var a, s := AtMost(m.addressCount, 36), AtMost(m.subaddressCount, 36);
            var b := AtMost(if m.bearerLen < 0 then 0 else m.bearerLen, 255);
            var ws := Words(m);
            && |ws| == 12 + a + s + b
            && ws[0] == IntWord(m.teleserviceId) && ws[1] == ByteWord(m.isServicePresent) && ws[2] == IntWord(m.serviceCategory)
            && ws[3] == IntWord(m.digitMode) && ws[4] == IntWord(m.numberMode) && ws[5] == IntWord(m.numberType)
            && ws[6] == IntWord(m.numberPlan) && ws[7] == ByteWord(m.addressCount)
            && (forall i :: 0 <= i < a ==> ws[8 + i] == ByteWord(m.address[i]))
            && ws[8 + a] == IntWord(m.subaddressType) && ws[9 + a] == ByteWord(m.odd) && ws[10 + a] == ByteWord(m.subaddressCount)
            && (forall i :: 0 <= i < s ==> ws[11 + a + i] == ByteWord(m.subaddress[i]))
            && ws[11 + a + s] == IntWord(m.bearerLen)
            && (forall i :: 0 <= i < b ==> ws[12 + a + s + i] == ByteWord(m.bearer[i]))
  {
    Layout(m);
    hide IntWord, ByteWord, Words;
    var ws, a := Words(m), |Address(m)|;
    forall i | 0 <= i < 8 ensures ws[i] == Head(m)[i] { assert ws[i] == ws[..8][i]; }
    forall i | 0 <= i < 3 ensures ws[8 + a + i] == Middle(m)[i] { assert ws[8 + a + i] == ws[8 + a..][..3][i]; }
  }

  /** What is read back: the fields as they were, and of each array the elements below its count, which stops at the
      size of the array. */
  lemma NormalIs(m: Message)
    requires Sized(m)
    ensures var n := Normal(m);
            && n == m.(address := n.address, subaddress := n.subaddress, bearer := n.bearer)
            && |n.address| == |n.subaddress| == 36 && |n.bearer| == 255
            && (forall i :: 0 <= i < 36 ==> n.address[i] == if i < m.addressCount then m.address[i] else 0)
            && (forall i :: 0 <= i < 36 ==> n.subaddress[i] == if i < m.subaddressCount then m.subaddress[i] else 0)
            && (forall i :: 0 <= i < 255 ==> n.bearer[i] == if i < m.bearerLen then m.bearer[i] else 0)
  {
  }

  /** The seven integers and bytes of the head and the digit count. */
  datatype Fields = Fields(t0: int32, b1: byte, t2: int32, t3: int32, t4: int32, t5: int32, t6: int32, b7: byte)

  function FieldsOf(m: Message): Fields {
    Fields(m.teleserviceId, m.isServicePresent, m.serviceCategory, m.digitMode, m.numberMode, m.numberType, m.numberPlan,
           m.addressCount)
  }

  method ReadHead(p: Parcel, t0: int32, ut0: byte, ghost start: nat, ghost m: Message)
    returns (status: bool, t: int32, ut: byte, f: Fields)
    requires Sized(m) && Follows(p, start, Words(m), 0, true)
    modifies p`pos
    ensures Follows(p, start, Words(m), 8, status) && ut == f.b7
    ensures Agrees(p.data, start, Words(m)) && status ==> f == FieldsOf(m)
  {
    Layout(m);
    HeadValues(m);
    ghost var ws := Words(m);
    hide IntWord, ByteWord, WordInt, Words, Head, Follows, Agrees, Sized, AllWords;
    var x0, x2, x3, x4, x5, x6;
    status := true;
    status, x0 := NextInt(p, t0, start, ws, 0, status);
    status, ut := NextByte(p, ut0, start, ws, 1, status);
    var x1 := ut;
    status, x2 := NextInt(p, x0, start, ws, 2, status);
    status, x3 := NextInt(p, x2, start, ws, 3, status);
    status, x4 := NextInt(p, x3, start, ws, 4, status);
    status, x5 := NextInt(p, x4, start, ws, 5, status);
    status, x6 := NextInt(p, x5, start, ws, 6, status);
    status, ut := NextByte(p, ut, start, ws, 7, status);
    t, f := x6, Fields(x0, x1, x2, x3, x4, x5, x6, ut);
  }

  /** Reading a word of the head gives the field it was written from. */
  lemma HeadValues(m: Message)
    requires Sized(m)
    ensures var ws := Words(m);
            && |ws| >= 12
            && FieldsOf(m) == Fields(WordInt(ws[0]), ws[1][0], WordInt(ws[2]), WordInt(ws[3]),
                                     WordInt(ws[4]), WordInt(ws[5]), WordInt(ws[6]), ws[7][0])
  {
    Layout(m);
    var ws := Words(m);
    hide Words, IntWord, WordInt;
    forall i | 0 <= i < 8 ensures ws[i] == Head(m)[i] { assert ws[i] == ws[..8][i]; }
    WordIntRoundTrip(m.teleserviceId);
    WordIntRoundTrip(m.serviceCategory);
    WordIntRoundTrip(m.digitMode);
    WordIntRoundTrip(m.numberMode);
    WordIntRoundTrip(m.numberType);
    WordIntRoundTrip(m.numberPlan);
  }

  ghost function Address(m: Message): seq<byte> requires Sized(m) { m.address[..Clip(m.addressCount, ADDRESS_MAX)] }
  ghost function Subaddress(m: Message): seq<byte> requires Sized(m) { m.subaddress[..Clip(m.subaddressCount, SUBADDRESS_MAX)] }
  ghost function Bearer(m: Message): seq<byte> requires Sized(m) { m.bearer[..Clip(m.bearerLen, BEARER_DATA_MAX)] }

  /** `memset` of one of the arrays, then its digit loop. */
  method ReadArray(p: Parcel, size: nat, digitLimit: int, status0: bool, ut0: byte,
                   ghost start: nat, ghost ws: seq<Word>, ghost j: nat, ghost x: seq<byte>)
    returns (status: bool, ut: byte, r: seq<byte>)
    requires Follows(p, start, ws, j, status0) && digitLimit <= size
    requires Agrees(p.data, start, ws) && status0 ==> |x| == (if digitLimit < 0 then 0 else digitLimit) && BytesAt(ws, j, x)
    modifies p`pos
    ensures Follows(p, start, ws, j + |x|, status) && |r| == size
    ensures Agrees(p.data, start, ws) && status ==> status0 && |x| <= size && r == x + Zeros(size - |x|)
  {
    hide Follows, Agrees, BytesAt;
    var digits := new byte[size](_ => 0);
    status, ut := ReadDigits(p, digits, digitLimit, status0, ut0, start, ws, j, x);
    r := digits[..];
    assert forall i :: 0 <= i < |x| && |x| <= size ==> r[i] == digits[..|x|][i];
  }

  datatype Subfields = Subfields(addressType: int32, odd: byte, count: byte)

  method ReadMiddle(p: Parcel, t0: int32, ut0: byte, status0: bool, ghost start: nat, ghost m: Message)
    returns (status: bool, t: int32, ut: byte, f: Subfields)
    requires Sized(m) && Follows(p, start, Words(m), 8 + |Address(m)|, status0)
    modifies p`pos
    ensures Follows(p, start, Words(m), 11 + |Address(m)|, status) && ut == f.count && t == f.addressType
    ensures Agrees(p.data, start, Words(m)) && status ==> status0 && f == Subfields(m.subaddressType, m.odd, m.subaddressCount)
  {
    Layout(m);
    ghost var ws, j := Words(m), 8 + |Address(m)|;
    assert ws[j] == ws[j..][..3][0] && ws[j + 1] == ws[j..][..3][1] && ws[j + 2] == ws[j..][..3][2];
    WordIntRoundTrip(m.subaddressType);
    hide IntWord, WordInt, Words, Follows, Agrees, Sized, AllWords;
    var odd;
    status, t := NextInt(p, t0, start, ws, j, status0);
    status, odd := NextByte(p, ut0, start, ws, j + 1, status);
    status, ut := NextByte(p, odd, start, ws, j + 2, status);
    f := Subfields(t, odd, ut);
  }

  /** `constructCdmaSms`. The two scratch variables start out with whatever the stack holds, and only
      the status of the last read is looked at. Still, on data that agrees with the parcel of a message
      as far as it goes, the reader succeeds exactly when no byte of that parcel is missing, and then it
      has the message, array tails zeroed, and stands behind it. */
  method ConstructCdmaSms(p: Parcel, t0: int32, ut0: byte, ghost m: Message) returns (status: bool, r: Message)
    requires p.pos <= |p.data| && Sized(m)
    modifies p`pos
    ensures Agrees(p.data, old(p.pos), Words(m)) ==>
              && (status <==> |p.data| >= old(p.pos) + |Bytes4(Words(m))|)
              && (status ==> r == Normal(m) && p.pos == old(p.pos) + |Bytes4(Words(m))|)
  {
    ghost var start, ws := p.pos, Words(m);
    Started(p, m);
    hide Words, Agrees, Follows, Normal, Sized;
    var t, ut, f, g := t0, ut0, Fields(0, 0, 0, 0, 0, 0, 0, 0), Subfields(0, 0, 0);
    var address, subaddress, bearer;
    status, t, ut, f, address := ReadFront(p, t, ut, start, m);
    status, t, ut, g := ReadMiddle(p, t, ut, status, start, m);
    status, t, subaddress, bearer := ReadBodies(p, t, ut, g.count, status, start, m);
    r := Message(f.t0, f.b1, f.t2, f.t3, f.t4, f.t5, f.t6, f.b7, address, g.addressType, g.odd, g.count, subaddress, t, bearer);
    Conclude(p, start, m, status);
    if Agrees(p.data, start, ws) && status { Assemble(m, r); }
  }

  lemma Started(p: Parcel, m: Message)
    requires p.pos <= |p.data| && Sized(m)
    ensures Follows(p, p.pos, Words(m), 0, true)
  {
  }

  /** The head and the address digits. */
  method ReadFront(p: Parcel, t0: int32, ut0: byte, ghost start: nat, ghost m: Message)
    returns (status: bool, t: int32, ut: byte, f: Fields, address: seq<byte>)
    requires Sized(m) && Follows(p, start, Words(m), 0, true)
    modifies p`pos
    ensures Follows(p, start, Words(m), 8 + |Address(m)|, status) && |address| == ADDRESS_MAX
    ensures Agrees(p.data, start, Words(m)) && status ==>
              f == FieldsOf(m) && address == Address(m) + Zeros(ADDRESS_MAX - |Address(m)|)
  {
    Layout(m);
    hide Words, Agrees, BytesAt, Follows, Head, Middle, AllWords;
    status, t, ut, f := ReadHead(p, t0, ut0, start, m);
    status, ut, address := ReadArray(p, ADDRESS_MAX, if f.b7 < ADDRESS_MAX then f.b7 else ADDRESS_MAX,
                                       status, ut, start, Words(m), 8, Address(m));
  }

  /** The subaddress digits, the bearer length and the bearer data. */
  method ReadBodies(p: Parcel, t0: int32, ut0: byte, count: byte, status0: bool, ghost start: nat, ghost m: Message)
    returns (status: bool, t: int32, subaddress: seq<byte>, bearer: seq<byte>)
    requires Sized(m) && Follows(p, start, Words(m), 11 + |Address(m)|, status0)
    requires Agrees(p.data, start, Words(m)) && status0 ==> count == m.subaddressCount
    modifies p`pos
    ensures Follows(p, start, Words(m), |Words(m)|, status)
    ensures |subaddress| == SUBADDRESS_MAX && |bearer| == BEARER_DATA_MAX
    ensures Agrees(p.data, start, Words(m)) && status ==>
              && status0 && t == m.bearerLen
              && subaddress == Subaddress(m) + Zeros(SUBADDRESS_MAX - |Subaddress(m)|)
              && bearer == Bearer(m) + Zeros(BEARER_DATA_MAX - |Bearer(m)|)
  {
    ghost var ws := Words(m);
    Layout(m);
    WordIntRoundTrip(m.bearerLen);
    hide IntWord, WordInt, Words, Agrees, BytesAt, ByteWord, Follows, Head, Middle, AllWords;
    var ut;
    status, ut, subaddress := ReadArray(p, SUBADDRESS_MAX, if count < SUBADDRESS_MAX then count else SUBADDRESS_MAX, status0, ut0,
                                        start, ws, 11 + |Address(m)|, Subaddress(m));
    status, t := NextInt(p, t0, start, ws, 11 + |Address(m)| + |Subaddress(m)|, status);
    status, ut, bearer := ReadArray(p, BEARER_DATA_MAX, if t < BEARER_DATA_MAX then t else BEARER_DATA_MAX, status, ut,
                                    start, ws, 12 + |Address(m)| + |Subaddress(m)|, Bearer(m));
  }

  lemma Conclude(p: Parcel, start: nat, m: Message, status: bool)
    requires Sized(m) && Follows(p, start, Words(m), |Words(m)|, status)
    ensures Agrees(p.data, start, Words(m)) ==>
              && (status <==> |p.data| >= start + |Bytes4(Words(m))|)
              && (status ==> p.pos == start + |Bytes4(Words(m))|)
  {
    Layout(m);
    Bytes4Length(Words(m));
    hide Words, Agrees;
  }

  lemma Assemble(m: Message, r: Message)
    requires Sized(m)
    requires r == m.(address := Address(m) + Zeros(ADDRESS_MAX - |Address(m)|),
                     subaddress := Subaddress(m) + Zeros(SUBADDRESS_MAX - |Subaddress(m)|),
                     bearer := Bearer(m) + Zeros(BEARER_DATA_MAX - |Bearer(m)|))
    ensures r == Normal(m)
  {
  }

  /** Written and read back, any message is itself with its array tails zeroed, and a second trip
      changes nothing. Of the written bytes cut short anywhere, the reader rejects every one. */
  method RoundTrip(m: Message, size: nat, t0: int32, ut0: byte, cut: nat) returns (whole: bool, r: Message, short: bool)
    requires Sized(m) && size > 0
    ensures whole && r == Normal(m)
    ensures cut < |Bytes4(Words(m))| ==> !short
  {
    hide Words, Normal, Agrees, Bytes4;
    var p := new Parcel();
    var ret := ResponseCdmaSms(p, Some(m), size, size);
    assert [] + Bytes4(Words(m)) == Bytes4(Words(m));
    whole, r := ReadBack(p.data, t0, ut0, m);
    var ignored;
    short, ignored := ReadBack(if cut < |p.data| then p.data[..cut] else p.data, t0, ut0, m);
  }

  /** Read a parcel made of the first bytes of the written one. */
  method ReadBack(data: seq<byte>, t0: int32, ut0: byte, ghost m: Message) returns (status: bool, r: Message)
    requires Sized(m) && data <= Bytes4(Words(m))
    ensures status <==> data == Bytes4(Words(m))
    ensures status ==> r == Normal(m)
  {
    Layout(m);
    OwnWords(Words(m), |data|);
    hide Words, Normal, Agrees, Bytes4;
    var p := new Parcel();
    p.data := data;
    assert data == Bytes4(Words(m))[..|data|];
    status, r := ConstructCdmaSms(p, t0, ut0, m);
  }

  lemma OwnWords(ws: seq<Word>, n: nat)
    requires AllWords(ws) && n <= |Bytes4(ws)|
    ensures Agrees(Bytes4(ws)[..n], 0, ws)
  {
    forall k | 0 <= k < |ws| && 4 * k + 4 <= n ensures Bytes4(ws)[..n][4 * k..4 * k + 4] == ws[k] {
      Bytes4At(ws, k);
      assert Bytes4(ws)[..n][4 * k..4 * k + 4] == Bytes4(ws)[4 * k..4 * k + 4];
    }
  }

  lemma NormalTwice(m: Message)
    requires Sized(m)
    ensures Sized(Normal(m)) && Normal(Normal(m)) == Normal(m) && Words(Normal(m)) == Words(m)
  {
    hide IntWord, ByteWord;
    var n := Normal(m);
    assert Address(n) == Address(m) && Subaddress(n) == Subaddress(m) && Bearer(n) == Bearer(m);
  }
}
