/** The log file: record encoding, the reader, the id scan and the log manager. */
module Wal {
  import opened Base
  import opened Bytes
  import opened Locks
  import opened Log

  const HEADER := 32
  const TWO32 := 0x1_0000_0000
  const TWO63 := 0x8000_0000_0000_0000
  const TWO64 := 0x1_0000_0000_0000_0000

  datatype WalError = ShortRead

  function PutSigned(v: int): (b: seq<byte>)
    ensures |b| == 8
  {
    PutInt(v % TWO64, 8)
  }

  function GetSigned(b: seq<byte>): int
    requires |b| == 8
  {
    var u := GetInt(b);
    if u < TWO63 then u else u - TWO64
  }

  lemma SignedRoundTrip(v: int)
    requires -TWO63 <= v < TWO63
    ensures GetSigned(PutSigned(v)) == v
  {
    Powers();
    GetPut(v % TWO64, 8);
  }

  /** Fixed header: lsn, transaction, kind, then the three payload lengths. */
  function Header(r: Record): (b: seq<byte>)
    ensures |b| == HEADER
  {
    PutSigned(r.lsn) + PutSigned(r.txn) + PutInt(r.kind, 4)
    + PutInt(|r.key|, 4) + PutInt(|r.beforeVal|, 4) + PutInt(|r.afterVal|, 4)
  }

  function Encode(r: Record): seq<byte> {
    Header(r) + r.key + r.beforeVal + r.afterVal
  }

  function EncodeAll(rs: seq<Record>): seq<byte> {
    if rs == [] then [] else Encode(rs[0]) + EncodeAll(rs[1..])
  }

  /** Records whose fields fit the widths of the header and whose kind is a real one. */
  predicate Storable(r: Record) {
    && -TWO63 <= r.lsn < TWO63 && -TWO63 <= r.txn < TWO63
    && 0 < r.kind < TWO32
    && |r.key| < TWO32 && |r.beforeVal| < TWO32 && |r.afterVal| < TWO32
  }

  // -------------------------------------------------------------- the reader

  function LsnAt(b: seq<byte>): int requires |b| >= HEADER { GetSigned(b[0..8]) }
  function TxnAt(b: seq<byte>): int requires |b| >= HEADER { GetSigned(b[8..16]) }
  function KindAt(b: seq<byte>): nat requires |b| >= HEADER { GetInt(b[16..20]) }
  function KeyLen(b: seq<byte>): nat requires |b| >= HEADER { GetInt(b[20..24]) }
  function BeforeLen(b: seq<byte>): nat requires |b| >= HEADER { GetInt(b[24..28]) }
  function AfterLen(b: seq<byte>): nat requires |b| >= HEADER { GetInt(b[28..32]) }

  /** Length of the record whose header starts the bytes. */
  function RecordLen(b: seq<byte>): (n: nat)
    requires |b| >= HEADER
    ensures n >= HEADER
  {
    HEADER + KeyLen(b) + BeforeLen(b) + AfterLen(b)
  }

  /** No further record: fewer bytes than a header, or a zeroed kind. */
  predicate AtEnd(b: seq<byte>) {
    |b| < HEADER || KindAt(b) == INVALID
  }

  function Parse(b: seq<byte>): Record
    requires |b| >= HEADER && RecordLen(b) <= |b|
  {
    var k := HEADER + KeyLen(b);
    var v := k + BeforeLen(b);
    Record(LsnAt(b), TxnAt(b), KindAt(b), b[HEADER..k], BeforeLen(b) > 0, b[k..v], b[v..v + AfterLen(b)])
  }

  /** The records in a file, or an error if a record's payload is cut short. */
  function ReadAll(b: seq<byte>): Result<seq<Record>, WalError>
    decreases |b|
  {
    if AtEnd(b) then Success([])
    else if |b| < RecordLen(b) then Failure(ShortRead)
    else
      match ReadAll(b[RecordLen(b)..])
      case Failure(e) => Failure(e)
      case Success(rs) => Success([Parse(b)] + rs)
  }

  function Max(a: int, b: int): int { if a >= b then a else b }

  /** Largest lsn and transaction id among the headers of a file, at least 0. */
  function ScanIds(b: seq<byte>): (int, int)
    decreases |b|
  {
    if AtEnd(b) then (0, 0)
    else
      var rest := if RecordLen(b) <= |b| then ScanIds(b[RecordLen(b)..]) else (0, 0);
      (Max(LsnAt(b), rest.0), Max(TxnAt(b), rest.1))
  }

  // ------------------------------------------------------------- round trips

  lemma HeaderFields(r: Record, b: seq<byte>)
    requires Storable(r) && |b| >= HEADER && b[..HEADER] == Header(r)
    ensures LsnAt(b) == r.lsn && TxnAt(b) == r.txn && KindAt(b) == r.kind
    ensures KeyLen(b) == |r.key| && BeforeLen(b) == |r.beforeVal| && AfterLen(b) == |r.afterVal|
  {
    hide PutInt, GetInt, PutSigned, GetSigned, Pow256;
    HeaderSlices(PutSigned(r.lsn), PutSigned(r.txn), PutInt(r.kind, 4),
                 PutInt(|r.key|, 4), PutInt(|r.beforeVal|, 4), PutInt(|r.afterVal|, 4), b);
    SignedRoundTrip(r.lsn);
    SignedRoundTrip(r.txn);
    Powers();
    GetPut(r.kind, 4);
    GetPut(|r.key|, 4);
    GetPut(|r.beforeVal|, 4);
    GetPut(|r.afterVal|, 4);
  }

  // ------------------------------------------------------------------ the format

  /** The format the reader expects, byte by byte, of any bytes: lsn at 0 and transaction at 8, both
      signed; type at 16, key length at 20, before length at 24, after length at 28; from 32 on the
      key, the before-value and the after-value. The file ends where no header fits or a type is 0. */
  lemma ReaderFormat(b: seq<byte>)
    requires |b| >= 32
    ensures AtEnd(b) <==> Word(b, 16) == 0
    ensures RecordLen(b) == 32 + Word(b, 20) + Word(b, 24) + Word(b, 28)
    ensures RecordLen(b) <= |b| ==>
              var v := 32 + Word(b, 20);
              var w := v + Word(b, 24);
              Parse(b) == Record(Signed64(Word(b, 0) + TWO32 * Word(b, 4)), Signed64(Word(b, 8) + TWO32 * Word(b, 12)), Word(b, 16),
                                 b[32..v], Word(b, 24) > 0, b[v..w], b[w..w + Word(b, 28)])
  {
    hide LsnAt, TxnAt, KindAt, KeyLen, BeforeLen, AfterLen, Word;
    FieldWords(b);
  }

  lemma FieldsAre(b: seq<byte>)
    requires |b| >= 32
    ensures LsnAt(b) == GetSigned(b[0..0 + 8]) && TxnAt(b) == GetSigned(b[8..8 + 8])
    ensures KindAt(b) == GetInt(b[16..16 + 4]) && KeyLen(b) == GetInt(b[20..20 + 4])
    ensures BeforeLen(b) == GetInt(b[24..24 + 4]) && AfterLen(b) == GetInt(b[28..28 + 4])
  {
  }

  /** The format the writer produces, in the same terms. */
  lemma WriterFormat(r: Record)
    requires Storable(r)
    ensures var b := Encode(r);
            var v := 32 + |r.key|;
            var w := v + |r.beforeVal|;
            && |b| == w + |r.afterVal|
            && Signed64(Word(b, 0) + TWO32 * Word(b, 4)) == r.lsn && Signed64(Word(b, 8) + TWO32 * Word(b, 12)) == r.txn
            && Word(b, 16) == r.kind && Word(b, 20) == |r.key| && Word(b, 24) == |r.beforeVal| && Word(b, 28) == |r.afterVal|
            && b[32..v] == r.key && b[v..w] == r.beforeVal && b[w..] == r.afterVal
  {
    hide GetInt, Word, PutInt, PutSigned, GetSigned, Parse, AtEnd;
    var b := Encode(r);
    assert b[..HEADER] == Header(r);
    HeaderFields(r, b);
    FieldWords(b);
  }

  lemma FieldWords(b: seq<byte>)
    requires |b| >= 32
    ensures LsnAt(b) == Signed64(Word(b, 0) + TWO32 * Word(b, 4)) && TxnAt(b) == Signed64(Word(b, 8) + TWO32 * Word(b, 12))
    ensures KindAt(b) == Word(b, 16) && KeyLen(b) == Word(b, 20) && BeforeLen(b) == Word(b, 24) && AfterLen(b) == Word(b, 28)
  {
    hide GetInt, Word;
    DoubleWordIs(b, 0);
    DoubleWordIs(b, 8);
    WordIs(b, 16);
    WordIs(b, 20);
    WordIs(b, 24);
    WordIs(b, 28);
    FieldsAre(b);
  }

  /** A record whose type was zeroed ends the log: nothing from its header on is read. */
  lemma ZeroTypeEndsLog(rs: seq<Record>, tail: seq<byte>)
    requires forall r :: r in rs ==> Storable(r)
    requires |tail| >= 32 && Word(tail, 16) == 0
    ensures ReadAll(EncodeAll(rs) + tail) == Success(DecodedLog(rs))
  {
    hide EncodeAll, Word, Storable;
    ReadPrefix(rs, tail);
    FieldWords(tail);
    assert DecodedLog(rs) + [] == DecodedLog(rs);
  }

  lemma HeaderSlices(lsn: seq<byte>, txn: seq<byte>, kind: seq<byte>,
                     klen: seq<byte>, blen: seq<byte>, alen: seq<byte>, b: seq<byte>)
    requires |lsn| == |txn| == 8 && |kind| == |klen| == |blen| == |alen| == 4
    requires |b| >= HEADER && b[..HEADER] == lsn + txn + kind + klen + blen + alen
    ensures b[0..8] == lsn && b[8..16] == txn && b[16..20] == kind
    ensures b[20..24] == klen && b[24..28] == blen && b[28..32] == alen
  {
    var h := lsn + txn + kind + klen + blen + alen;
    assert forall i :: 0 <= i < HEADER ==> b[i] == b[..HEADER][i] == h[i];
  }

  lemma ParseEncoded(r: Record, tail: seq<byte>)
    requires Storable(r)
    ensures var b := Encode(r) + tail;
            && !AtEnd(b) && RecordLen(b) == |Encode(r)| && Parse(b) == Decoded(r) && b[RecordLen(b)..] == tail
  {
    hide PutInt, GetInt, PutSigned, GetSigned;
    var b := Encode(r) + tail;
    assert b[..HEADER] == Header(r);
    HeaderFields(r, b);
    var k := HEADER + |r.key|;
    var v := k + |r.beforeVal|;
    assert b[HEADER..k] == r.key;
    assert b[k..v] == r.beforeVal;
    assert b[v..v + |r.afterVal|] == r.afterVal;
  }

  /** `first` in front of whatever reading the rest gives. */
  function Prepend(first: seq<Record>, rest: Result<seq<Record>, WalError>): Result<seq<Record>, WalError> {
    match rest
    case Failure(e) => Failure(e)
    case Success(rs) => Success(first + rs)
  }

  lemma ReadOne(r: Record, tail: seq<byte>)
    requires Storable(r)
    ensures ReadAll(Encode(r) + tail) == Prepend([Decoded(r)], ReadAll(tail))
  {
    hide Encode, Parse, Storable;
    ParseEncoded(r, tail);
  }

  /** Reading a file that starts with whole records. */
  lemma {:induction false} ReadPrefix(rs: seq<Record>, tail: seq<byte>)
    requires forall r :: r in rs ==> Storable(r)
    ensures ReadAll(EncodeAll(rs) + tail) == Prepend(DecodedLog(rs), ReadAll(tail))
    decreases |rs|
  {
    hide Encode, ReadAll, Storable, Decoded;
    if rs == [] {
      assert EncodeAll(rs) + tail == tail;
      assert DecodedLog(rs) == [];
      PrependAssoc([], [], ReadAll(tail));
    } else {
      assert rs[0] in rs;
      assert EncodeAll(rs) + tail == Encode(rs[0]) + (EncodeAll(rs[1..]) + tail);
      ReadOne(rs[0], EncodeAll(rs[1..]) + tail);
      ReadPrefix(rs[1..], tail);
      assert DecodedLog(rs) == [Decoded(rs[0])] + DecodedLog(rs[1..]);
      PrependAssoc([Decoded(rs[0])], DecodedLog(rs[1..]), ReadAll(tail));
    }
  }

  lemma PrependAssoc(a: seq<Record>, b: seq<Record>, r: Result<seq<Record>, WalError>)
    ensures Prepend(a, Prepend(b, r)) == Prepend(a + b, r)
    ensures a == [] ==> Prepend(a, r) == r
  {
    if r.Success? {
      assert a + (b + r.value) == a + b + r.value;
      if a == [] { assert a + r.value == r.value; }
    }
  }

  /** Reading back what was appended; existence of a before-image is inferred from its length. */
  lemma RoundTrip(rs: seq<Record>)
    requires forall r :: r in rs ==> Storable(r)
    ensures ReadAll(EncodeAll(rs)) == Success(DecodedLog(rs))
    ensures (forall r :: r in rs ==> (r.beforeExists <==> r.beforeVal != [])) ==> DecodedLog(rs) == rs
  {
    ReadPrefix(rs, []);
    assert EncodeAll(rs) + [] == EncodeAll(rs);
    assert DecodedLog(rs) + [] == DecodedLog(rs);
  }

  /** A record torn inside its header is dropped; torn inside its payload it is an error. */
  lemma TornTail(rs: seq<Record>, r: Record, cut: nat)
    requires forall x :: x in rs + [r] ==> Storable(x)
    requires cut < |Encode(r)|
    ensures ReadAll(EncodeAll(rs) + Encode(r)[..cut]) ==
            if cut < HEADER then Success(DecodedLog(rs)) else Failure(ShortRead)
  {
    hide PutInt, GetInt, PutSigned, GetSigned;
    var tail := Encode(r)[..cut];
    assert forall x :: x in rs ==> x in rs + [r];
    assert r in rs + [r];
    ReadPrefix(rs, tail);
    if cut >= HEADER {
      assert tail[..HEADER] == Header(r);
      HeaderFields(r, tail);
    } else {
      assert DecodedLog(rs) + [] == DecodedLog(rs);
    }
  }

  /** Any readable file: the id scan covers exactly the records the reader returns. */
  lemma {:induction false} ScanCoversRecords(b: seq<byte>)
    requires ReadAll(b).Success?
    ensures forall r :: r in ReadAll(b).value ==> r.lsn <= ScanIds(b).0 && r.txn <= ScanIds(b).1
    ensures ScanIds(b).0 == 0 || exists r :: r in ReadAll(b).value && r.lsn == ScanIds(b).0
    ensures ScanIds(b).1 == 0 || exists r :: r in ReadAll(b).value && r.txn == ScanIds(b).1
    decreases |b|
  {
    if !AtEnd(b) {
      var rest := b[RecordLen(b)..];
      ScanCoversRecords(rest);
      var rs, all := ReadAll(rest).value, ReadAll(b).value;
      assert all == [Parse(b)] + rs;
      assert forall r :: r in all <==> r == Parse(b) || r in rs;
    }
  }

  lemma {:induction false} EncodeAllSnoc(rs: seq<Record>, r: Record)
    ensures EncodeAll(rs + [r]) == EncodeAll(rs) + Encode(r)
  {
    if rs == [] {
      assert [r][1..] == [];
      assert rs + [r] == [r];
      assert EncodeAll([r]) == Encode(r) + EncodeAll([]);
    } else {
      assert (rs + [r])[1..] == rs[1..] + [r];
      EncodeAllSnoc(rs[1..], r);
    }
  }

  lemma {:induction false} ScanNonNegative(b: seq<byte>)
    ensures ScanIds(b).0 >= 0 && ScanIds(b).1 >= 0
    decreases |b|
  {
    if !AtEnd(b) && RecordLen(b) <= |b| { ScanNonNegative(b[RecordLen(b)..]); }
  }

  // ------------------------------------------------------------ the log manager

  class LogManager {
    var file: seq<byte>
    var nextLsn: int
    var nextTxn: TxnId

    /** Open an existing file and continue its counters. */
    constructor (file: seq<byte>)
      ensures this.file == file
      ensures nextLsn == (if ScanIds(file).0 > 0 then ScanIds(file).0 + 1 else 1)
      ensures nextTxn == (if ScanIds(file).1 > 0 then ScanIds(file).1 + 1 else 1)
      ensures ReadAll(file).Success? ==>
                forall r :: r in ReadAll(file).value ==> r.lsn < nextLsn && r.txn < nextTxn
    {
      var maxLsn, maxTxn := Scan(file);
      this.file := file;
      nextLsn := if maxLsn > 0 then maxLsn + 1 else 1;
      nextTxn := if maxTxn > 0 then maxTxn + 1 else 1;
      if ReadAll(file).Success? { ScanCoversRecords(file); }
    }

    /** Walk the file from one record header to the next. */
    static method Scan(file: seq<byte>) returns (maxLsn: int, maxTxn: int)
      ensures (maxLsn, maxTxn) == ScanIds(file)
    {
      maxLsn, maxTxn := 0, 0;
      var offset := 0;
      assert file[0..] == file;
      ScanNonNegative(file);
      while true
        invariant 0 <= offset
        invariant 0 <= maxLsn && 0 <= maxTxn
        invariant ScanIds(file) ==
                  var rest := if offset <= |file| then ScanIds(file[offset..]) else (0, 0);
                  (Max(maxLsn, rest.0), Max(maxTxn, rest.1))
        decreases |file| - offset
      {
        if offset > |file| || |file| - offset < HEADER {
          assert offset <= |file| ==> AtEnd(file[offset..]);
          break;
        }
        var hdr := file[offset..offset + HEADER];
        SameHeader(file[offset..], hdr);
        if KindAt(hdr) == INVALID {
          break;
        }
        maxLsn := Max(maxLsn, LsnAt(hdr));
        maxTxn := Max(maxTxn, TxnAt(hdr));
        ghost var b := file[offset..];
        offset := offset + HEADER + KeyLen(hdr) + BeforeLen(hdr) + AfterLen(hdr);
        if offset <= |file| { assert b[RecordLen(b)..] == file[offset..]; }
      }
    }

    /** Serialize one record into a buffer and add it to the end of the file. */
    method Append(r: Record) returns (lsn: int)
      modifies this`file, this`nextLsn
      ensures lsn == old(nextLsn) && nextLsn == old(nextLsn) + 1
      ensures file == old(file) + Encode(r.(lsn := lsn))
    {
      lsn := nextLsn;
      nextLsn := nextLsn + 1;
      var rec := r.(lsn := lsn);
      var total := HEADER + |rec.key| + |rec.beforeVal| + |rec.afterVal|;
      var buf := new byte[total];
      var dst := 0;
      CopyInto(buf, dst, Header(rec));
      dst := dst + HEADER;
      assert buf[..dst] == Header(rec);
      if rec.key != [] {
        CopyInto(buf, dst, rec.key);
        dst := dst + |rec.key|;
      }
      assert buf[..dst] == Header(rec) + rec.key;
      if rec.beforeVal != [] {
        CopyInto(buf, dst, rec.beforeVal);
        dst := dst + |rec.beforeVal|;
      }
      assert buf[..dst] == Header(rec) + rec.key + rec.beforeVal;
      if rec.afterVal != [] {
        CopyInto(buf, dst, rec.afterVal);
      }
      assert buf[..] == Encode(rec);
      file := file + buf[..];
    }

    method BeginTxn() returns (txn: TxnId, lsn: int)
      modifies this
      ensures txn == old(nextTxn) && nextTxn == old(nextTxn) + 1
      ensures lsn == old(nextLsn) && nextLsn == old(nextLsn) + 1
      ensures file == old(file) + Encode(Record(lsn, txn, BEGIN, [], false, [], []))
    {
      txn := nextTxn;
      nextTxn := nextTxn + 1;
      lsn := Append(Record(0, txn, BEGIN, [], false, [], []));
    }

    /** Read every record, front to back. */
    method Read() returns (r: Result<seq<Record>, WalError>)
      ensures r == ReadAll(file)
    {
      hide ReadAll, GetInt, GetSigned, Parse;
      var out: seq<Record> := [];
      var offset := 0;
      assert file[0..] == file;
      PrependAssoc([], [], ReadAll(file));
      while true
        invariant 0 <= offset <= |file|
        invariant ReadAll(file) == Prepend(out, ReadAll(file[offset..]))
        decreases |file| - offset
      {
        ghost var b := file[offset..];
        ReadHere(b);
        if |file| - offset < HEADER {
          assert AtEnd(b) && out + [] == out;
          return Success(out);
        }
        var hdr := file[offset..offset + HEADER];
        SameHeader(b, hdr);
        if KindAt(hdr) == INVALID {
          assert out + [] == out;
          return Success(out);
        }
        var k := offset + HEADER + KeyLen(hdr);
        var v := k + BeforeLen(hdr);
        var end := v + AfterLen(hdr);
        if k > |file| || v > |file| || end > |file| {
          return Failure(ShortRead);
        }
        var rec := Record(LsnAt(hdr), TxnAt(hdr), KindAt(hdr), file[offset + HEADER..k],
                          BeforeLen(hdr) > 0, file[k..v], file[v..end]);
        ParsedHere(file, offset, rec);
        PrependAssoc(out, [rec], ReadAll(file[end..]));
        out := out + [rec];
        offset := end;
      }
    }

    method Truncate()
      modifies this
      ensures file == [] && nextLsn == 1 && nextTxn == 1
    {
      file, nextLsn, nextTxn := [], 1, 1;
    }
  }

  lemma SameHeader(b: seq<byte>, h: seq<byte>)
    requires |b| >= HEADER && h == b[..HEADER]
    ensures LsnAt(h) == LsnAt(b) && TxnAt(h) == TxnAt(b) && KindAt(h) == KindAt(b)
    ensures KeyLen(h) == KeyLen(b) && BeforeLen(h) == BeforeLen(b) && AfterLen(h) == AfterLen(b)
  {
    assert h[0..8] == b[0..8] && h[8..16] == b[8..16] && h[16..20] == b[16..20];
    assert h[20..24] == b[20..24] && h[24..28] == b[24..28] && h[28..32] == b[28..32];
  }

  /** The reader's three ways to go on. */
  lemma ReadHere(b: seq<byte>)
    ensures AtEnd(b) ==> ReadAll(b) == Success([])
    ensures !AtEnd(b) && |b| < RecordLen(b) ==> ReadAll(b) == Failure(ShortRead)
    ensures !AtEnd(b) && |b| >= RecordLen(b) ==> ReadAll(b) == Prepend([Parse(b)], ReadAll(b[RecordLen(b)..]))
  {
    hide GetInt, GetSigned, Parse;
  }

  lemma ParsedHere(file: seq<byte>, offset: nat, rec: Record)
    requires offset <= |file| && |file| - offset >= HEADER
    requires var b := file[offset..]; RecordLen(b) <= |b| && !AtEnd(b)
    requires var b := file[offset..];
             var k := offset + HEADER + KeyLen(b);
             var v := k + BeforeLen(b);
             rec == Record(LsnAt(b), TxnAt(b), KindAt(b), file[offset + HEADER..k],
                           BeforeLen(b) > 0, file[k..v], file[v..v + AfterLen(b)])
    ensures var b := file[offset..];
            rec == Parse(b) && b[RecordLen(b)..] == file[offset + RecordLen(b)..]
  {
    hide LsnAt, TxnAt, KindAt, KeyLen, BeforeLen, AfterLen;
    var b := file[offset..];
    var k := HEADER + KeyLen(b);
    var v := k + BeforeLen(b);
    SliceAt(file, offset, HEADER, k);
    SliceAt(file, offset, k, v);
    SliceAt(file, offset, v, v + AfterLen(b));
    SliceAt(file, offset, RecordLen(b), |b|);
    assert b[RecordLen(b)..|b|] == b[RecordLen(b)..];
  }

  lemma SliceAt(file: seq<byte>, offset: nat, i: nat, j: nat)
    requires offset + j <= |file| && i <= j
    ensures file[offset..][i..j] == file[offset + i..offset + j]
  {
  }
}
