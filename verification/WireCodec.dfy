/** The fixed layouts in which clients and broker exchange records, utils/writer_stc.c and utils/reader_stc.c. */
module WireCodec {
  import opened CTypes

  const MAX_LINE := 1029
  const MAX_PIPE_NAME := 256
  const MAX_BOX_NAME := 32
  const MAX_PASSWORD := 5
  const MAX_MESSAGE := 1024

  newtype Int32 = x: int | -0x8000_0000 <= x < 0x8000_0000
  newtype UInt64 = x: int | 0 <= x < SIZE_T_RANGE

  // ---- integers in memory ----

  /** 256 to the power k. */
  function Range(k: nat): (r: nat)
    ensures r > 0
  {
    if k == 0 then 1 else 256 * Range(k - 1)
  }

  /** The k bytes of n, least significant first. */
  function LittleEndian(n: nat, k: nat): (b: seq<Byte>)
    ensures |b| == k
  {
    if k == 0 then [] else [(n % 256) as Byte] + LittleEndian(n / 256, k - 1)
  }

  function Value(b: seq<Byte>): nat {
    if b == [] then 0 else b[0] as nat + 256 * Value(b[1..])
  }

  lemma {:induction false} ValueOfBytes(n: nat, k: nat)
    requires n < Range(k)
    ensures Value(LittleEndian(n, k)) == n
  {
    if k > 0 {
      ValueOfBytes(n / 256, k - 1);
      assert LittleEndian(n, k)[1..] == LittleEndian(n / 256, k - 1);
    }
  }

  lemma ValueStep(low: Byte, rest: nat, range: nat)
    requires rest < range
    ensures var v := low as nat + 256 * rest; v % 256 == low as nat && v / 256 == rest && v < 256 * range
  {
  }

  lemma {:induction false} BytesOfValue(b: seq<Byte>)
    ensures Value(b) < Range(|b|) && LittleEndian(Value(b), |b|) == b
  {
    if b != [] {
      BytesOfValue(b[1..]);
      ValueStep(b[0], Value(b[1..]), Range(|b| - 1));
      assert b == [b[0]] + b[1..];
    }
  }

  lemma Ranges()
    ensures Range(4) == 0x1_0000_0000 && Range(8) == SIZE_T_RANGE
  {
    assert Range(1) == 256 * Range(0) && Range(2) == 256 * Range(1) && Range(3) == 256 * Range(2);
    assert Range(5) == 256 * Range(4) && Range(6) == 256 * Range(5) && Range(7) == 256 * Range(6);
  }

  /** An int32_t in two's complement. */
  function Int32Bytes(v: Int32): seq<Byte> {
    LittleEndian(if v < 0 then v as int + 0x1_0000_0000 else v as int, 4)
  }

  function Int32Value(b: seq<Byte>): Int32
    requires |b| == 4
  {
    BytesOfValue(b);
    Ranges();
    var n := Value(b);
    if n >= 0x8000_0000 then (n - 0x1_0000_0000) as Int32 else n as Int32
  }

  function UInt64Bytes(v: UInt64): seq<Byte> { LittleEndian(v as nat, 8) }

  function UInt64Value(b: seq<Byte>): UInt64
    requires |b| == 8
  {
    BytesOfValue(b);
    Ranges();
    Value(b) as UInt64
  }

  lemma Int32RoundTrip(v: Int32, b: seq<Byte>)
    requires |b| == 4
    ensures Int32Value(Int32Bytes(v)) == v && Int32Bytes(Int32Value(b)) == b
  {
    Ranges();
    ValueOfBytes(if v < 0 then v as int + 0x1_0000_0000 else v as int, 4);
    BytesOfValue(b);
  }

  lemma UInt64RoundTrip(v: UInt64, b: seq<Byte>)
    requires |b| == 8
    ensures UInt64Value(UInt64Bytes(v)) == v && UInt64Bytes(UInt64Value(b)) == b
  {
    Ranges();
    ValueOfBytes(v as nat, 8);
    BytesOfValue(b);
  }

  // ---- records ----

  datatype Record =
    | Request(code: Byte, pipeName: seq<Byte>, boxName: seq<Byte>, boxPassword: seq<Byte>)
    | ResponseManager(code: Byte, returnCode: Int32, errorMessage: seq<Byte>)
    | ListRequest(code: Byte, pipeName: seq<Byte>)
    | ListResponse(code: Byte, last: Byte, boxName: seq<Byte>, boxSize: UInt64, nPubs: UInt64, nSubs: UInt64,
      boxPassword: seq<Byte>)
    | Message(code: Byte, message: seq<Byte>)
    | NewPassword(request: Record, newPassword: seq<Byte>)
  {
    /** Its char arrays have the sizes utils/pipeflow.h gives them. */
    predicate Sized() {
      match this
      case Request(_, pipe, box, password) => |pipe| == MAX_PIPE_NAME && |box| == MAX_BOX_NAME
        && |password| == MAX_PASSWORD
      case ResponseManager(_, _, message) => |message| == MAX_MESSAGE
      case ListRequest(_, pipe) => |pipe| == MAX_PIPE_NAME
      case ListResponse(_, _, box, _, _, _, password) => |box| == MAX_BOX_NAME && |password| == MAX_PASSWORD
      case Message(_, message) => |message| == MAX_MESSAGE
      case NewPassword(request, password) => request.Request? && request.Sized() && |password| == MAX_PASSWORD
    }

    function Code(): Byte {
      match this
      case NewPassword(request, _) => if request.NewPassword? then NUL else request.code
      case _ => code
    }
  }

  datatype Layout = LRequest | LResponse | LListRequest | LListResponse | LMessage | LNewPassword

  /** The layout a code selects, on either side. */
  function LayoutOf(code: Byte): Layout {
    if code in {4, 6, 12, 14} then LResponse
    else if code == 7 then LListRequest
    else if code == 8 then LListResponse
    else if code in {9, 10} then LMessage
    else if code == 13 then LNewPassword
    else LRequest
  }

  predicate HasLayout(r: Record, l: Layout) {
    match l
    case LRequest => r.Request?
    case LResponse => r.ResponseManager?
    case LListRequest => r.ListRequest?
    case LListResponse => r.ListResponse?
    case LMessage => r.Message?
    case LNewPassword => r.NewPassword?
  }

  /** The sizes of a layout's fields, in order. */
  function Sizes(l: Layout): seq<nat> {
    match l
    case LRequest => [1, MAX_PIPE_NAME, MAX_BOX_NAME, MAX_PASSWORD]
    case LResponse => [1, 4, MAX_MESSAGE]
    case LListRequest => [1, MAX_PIPE_NAME]
    case LListResponse => [1, 1, MAX_BOX_NAME, 8, 8, 8, MAX_PASSWORD]
    case LMessage => [1, MAX_MESSAGE]
    case LNewPassword => [1, MAX_PIPE_NAME, MAX_BOX_NAME, MAX_PASSWORD, MAX_PASSWORD]
  }

  /** A record's fields as bytes. */
  function Fields(r: Record): seq<seq<Byte>>
    requires r.Sized()
  {
    match r
    case Request(code, pipe, box, password) => [[code], pipe, box, password]
    case ResponseManager(code, ret, message) => [[code], Int32Bytes(ret), message]
    case ListRequest(code, pipe) => [[code], pipe]
    case ListResponse(code, last, box, size, pubs, subs, password) =>
      [[code], [last], box, UInt64Bytes(size), UInt64Bytes(pubs), UInt64Bytes(subs), password]
    case Message(code, message) => [[code], message]
    case NewPassword(request, password) =>
      [[request.code], request.pipeName, request.boxName, request.boxPassword, password]
  }

  /** The record with these fields. */
  function FromFields(l: Layout, f: seq<seq<Byte>>): Record
    requires |f| == |Sizes(l)| && forall k :: 0 <= k < |f| ==> |f[k]| == Sizes(l)[k]
  {
    match l
    case LRequest => Request(f[0][0], f[1], f[2], f[3])
    case LResponse => ResponseManager(f[0][0], Int32Value(f[1]), f[2])
    case LListRequest => ListRequest(f[0][0], f[1])
    case LListResponse =>
      ListResponse(f[0][0], f[1][0], f[2], UInt64Value(f[3]), UInt64Value(f[4]), UInt64Value(f[5]), f[6])
    case LMessage => Message(f[0][0], f[1])
    case LNewPassword => NewPassword(Request(f[0][0], f[1], f[2], f[3]), f[4])
  }

  function Concat(f: seq<seq<Byte>>): seq<Byte> {
    if f == [] then [] else f[0] + Concat(f[1..])
  }

  function Sum(sizes: seq<nat>): nat {
    if sizes == [] then 0 else sizes[0] + Sum(sizes[1..])
  }

  function Split(sizes: seq<nat>, b: seq<Byte>): (f: seq<seq<Byte>>)
    requires Sum(sizes) <= |b|
    ensures |f| == |sizes| && forall k :: 0 <= k < |f| ==> |f[k]| == sizes[k]
  {
    if sizes == [] then [] else [b[..sizes[0]]] + Split(sizes[1..], b[sizes[0]..])
  }

  lemma FirstField(field: seq<Byte>, others: seq<Byte>, rest: seq<Byte>)
    ensures var b := (field + others) + rest; b[..|field|] == field && b[|field|..] == others + rest
  {
  }

  lemma {:induction false} SplitConcat(f: seq<seq<Byte>>, sizes: seq<nat>, rest: seq<Byte>)
    requires |f| == |sizes| && forall k :: 0 <= k < |f| ==> |f[k]| == sizes[k]
    ensures |Concat(f)| == Sum(sizes) && Split(sizes, Concat(f) + rest) == f
  {
    if f != [] {
      SplitConcat(f[1..], sizes[1..], rest);
      FirstField(f[0], Concat(f[1..]), rest);
      assert [f[0]] + f[1..] == f;
    }
  }

  lemma {:induction false} ConcatSplit(sizes: seq<nat>, b: seq<Byte>)
    requires Sum(sizes) <= |b|
    ensures Concat(Split(sizes, b)) == b[..Sum(sizes)]
  {
    if sizes != [] {
      ConcatSplit(sizes[1..], b[sizes[0]..]);
      assert Split(sizes, b)[1..] == Split(sizes[1..], b[sizes[0]..]);
      assert b[..Sum(sizes)] == b[..sizes[0]] + b[sizes[0]..][..Sum(sizes[1..])];
    }
  }

  lemma SumCons(a: nat, rest: seq<nat>)
    ensures Sum([a] + rest) == a + Sum(rest) && Sum([]) == 0
  {
    assert ([a] + rest)[1..] == rest;
  }

  lemma SumTwo(a: nat, b: nat)
    ensures Sum([a, b]) == a + b
  {
    hide Sum;
    SumCons(b, []);
    SumCons(a, [b]);
    assert [b] + [] == [b] && [a] + [b] == [a, b];
  }

  lemma SumThree(a: nat, b: nat, c: nat)
    ensures Sum([a, b, c]) == a + b + c
  {
    hide Sum;
    SumTwo(b, c);
    SumCons(a, [b, c]);
    assert [a] + [b, c] == [a, b, c];
  }

  lemma SumFour(a: nat, b: nat, c: nat, d: nat)
    ensures Sum([a, b, c, d]) == a + b + c + d
  {
    hide Sum;
    SumThree(b, c, d);
    SumCons(a, [b, c, d]);
    assert [a] + [b, c, d] == [a, b, c, d];
  }

  lemma SumFive(a: nat, rest: seq<nat>)
    requires |rest| == 4
    ensures Sum([a] + rest) == a + rest[0] + rest[1] + rest[2] + rest[3]
  {
    hide Sum;
    SumFour(rest[0], rest[1], rest[2], rest[3]);
    SumCons(a, rest);
    assert rest == [rest[0], rest[1], rest[2], rest[3]];
  }

  lemma SumSeven(a: nat, b: nat, c: nat, rest: seq<nat>)
    requires |rest| == 4
    ensures Sum([a, b, c] + rest) == a + b + c + rest[0] + rest[1] + rest[2] + rest[3]
  {
    hide Sum;
    SumFive(c, rest);
    SumCons(b, [c] + rest);
    SumCons(a, [b] + ([c] + rest));
    assert [a] + ([b] + ([c] + rest)) == [a, b, c] + rest;
  }

  lemma LayoutSums(l: Layout)
    ensures Sum(Sizes(l)) == match l
              case LRequest => 294 case LResponse => 1029 case LListRequest => 257
              case LListResponse => 63 case LMessage => 1025 case LNewPassword => 299
  {
    hide Sum;
    match l
    case LRequest => SumFour(1, MAX_PIPE_NAME, MAX_BOX_NAME, MAX_PASSWORD);
    case LResponse => SumThree(1, 4, MAX_MESSAGE);
    case LListRequest => SumTwo(1, MAX_PIPE_NAME);
    case LListResponse =>
      SumSeven(1, 1, MAX_BOX_NAME, [8, 8, 8, MAX_PASSWORD]);
      assert Sizes(l) == [1, 1, MAX_BOX_NAME] + [8, 8, 8, MAX_PASSWORD];
    case LMessage => SumTwo(1, MAX_MESSAGE);
    case LNewPassword =>
      SumFive(1, [MAX_PIPE_NAME, MAX_BOX_NAME, MAX_PASSWORD, MAX_PASSWORD]);
      assert Sizes(l) == [1] + [MAX_PIPE_NAME, MAX_BOX_NAME, MAX_PASSWORD, MAX_PASSWORD];
  }

  // ---- what goes over the pipe ----

  function Zeros(n: nat): (z: seq<Byte>)
    ensures |z| == n && forall k :: 0 <= k < n ==> z[k] == NUL
  {
    seq(n, _ => NUL)
  }

  lemma FieldsFit(r: Record, l: Layout)
    requires r.Sized() && HasLayout(r, l)
    ensures |Fields(r)| == |Sizes(l)| && forall k :: 0 <= k < |Sizes(l)| ==> |Fields(r)[k]| == Sizes(l)[k]
  {
  }

  /** A record's bytes stay within a line. */
  lemma EncodingFits(r: Record, l: Layout)
    requires r.Sized() && HasLayout(r, l)
    ensures |Concat(Fields(r))| == Sum(Sizes(l)) <= MAX_LINE
  {
    FieldsFit(r, l);
    SplitConcat(Fields(r), Sizes(l), []);
    LayoutSums(l);
  }

  /** The line writer_stc fills. */
  function Encode(r: Record, l: Layout): (b: seq<Byte>)
    requires r.Sized() && HasLayout(r, l)
    ensures |b| == MAX_LINE
  {
    EncodingFits(r, l);
    Concat(Fields(r)) + Zeros(MAX_LINE - |Concat(Fields(r))|)
  }

  /** The record reader_stc makes of a line. */
  function Decode(b: seq<Byte>): (r: Record)
    requires |b| == MAX_LINE
  {
    LayoutSums(LayoutOf(b[0]));
    FromFields(LayoutOf(b[0]), Split(Sizes(LayoutOf(b[0])), b))
  }

  lemma FieldsRoundTrip(r: Record, l: Layout)
    requires r.Sized() && HasLayout(r, l)
    ensures |Fields(r)| == |Sizes(l)| && forall k :: 0 <= k < |Sizes(l)| ==> |Fields(r)[k]| == Sizes(l)[k]
    ensures FromFields(l, Fields(r)) == r
  {
    FieldsFit(r, l);
    match r
    case ResponseManager(_, ret, _) => Int32RoundTrip(ret, Int32Bytes(ret));
    case ListResponse(_, _, _, size, pubs, subs, _) =>
      UInt64RoundTrip(size, UInt64Bytes(size));
      UInt64RoundTrip(pubs, UInt64Bytes(pubs));
      UInt64RoundTrip(subs, UInt64Bytes(subs));
    case _ =>
  }

  /** Reading back what was written gives the record again, if its code selects its own layout. */
  lemma DecodeEncode(r: Record)
    requires r.Sized() && HasLayout(r, LayoutOf(r.Code()))
    ensures Decode(Encode(r, LayoutOf(r.Code()))) == r
  {
    var l := LayoutOf(r.Code());
    FieldsRoundTrip(r, l);
    EncodingFits(r, l);
    SplitConcat(Fields(r), Sizes(l), Zeros(MAX_LINE - |Concat(Fields(r))|));
    assert Fields(r)[0] == [r.Code()] && Concat(Fields(r))[0] == r.Code();
  }

  lemma BytesRoundTrip(l: Layout, f: seq<seq<Byte>>)
    requires |f| == |Sizes(l)| && forall k :: 0 <= k < |f| ==> |f[k]| == Sizes(l)[k]
    ensures FromFields(l, f).Sized() && HasLayout(FromFields(l, f), l) && Fields(FromFields(l, f)) == f
    ensures FromFields(l, f).Code() == f[0][0]
  {
    assert f[0] == [f[0][0]];
    match l
    case LResponse => Int32RoundTrip(0, f[1]);
    case LListResponse =>
      assert f[1] == [f[1][0]];
      UInt64RoundTrip(0, f[3]);
      UInt64RoundTrip(0, f[4]);
      UInt64RoundTrip(0, f[5]);
    case _ =>
  }

  /** The line written for the record read from b: b as far as the layout goes, zeros after. */
  lemma ReencodedLine(b: seq<Byte>)
    requires |b| == MAX_LINE
    ensures var r := Decode(b); var l := LayoutOf(b[0]);
            && r.Sized() && HasLayout(r, l) && r.Code() == b[0] && Sum(Sizes(l)) <= MAX_LINE
            && Encode(r, l) == b[..Sum(Sizes(l))] + Zeros(MAX_LINE - Sum(Sizes(l)))
  {
    var l := LayoutOf(b[0]);
    LayoutSums(l);
    var f := Split(Sizes(l), b);
    BytesRoundTrip(l, f);
    ConcatSplit(Sizes(l), b);
    assert f[0] == b[..1];
  }

  /** Writing what was read restores the line exactly when the bytes behind the layout are zero. */
  lemma EncodeDecodeIff(b: seq<Byte>)
    requires |b| == MAX_LINE
    ensures var r := Decode(b); var l := LayoutOf(b[0]);
            && r.Sized() && HasLayout(r, l) && r.Code() == b[0]
            && (Encode(r, l) == b <==> forall k :: Sum(Sizes(l)) <= k < MAX_LINE ==> b[k] == NUL)
  {
    ReencodedLine(b);
    hide Decode, Encode, Sizes, LayoutOf;
    var n := Sum(Sizes(LayoutOf(b[0])));
    var e := b[..n] + Zeros(MAX_LINE - n);
    assert forall k :: n <= k < MAX_LINE ==> e[k] == NUL;
    assert forall k :: 0 <= k < n ==> e[k] == b[k];
  }

  // ---- the lines, byte by byte ----

  lemma SplitCons(n: nat, rest: seq<nat>, b: seq<Byte>, from: nat)
    requires from + n + Sum(rest) <= |b|
    ensures Sum([n] + rest) == n + Sum(rest)
    ensures Split([n] + rest, b[from..]) == [b[from..from + n]] + Split(rest, b[from + n..])
  {
    var sizes := [n] + rest;
    assert sizes[0..] == sizes && sizes[1..] == rest;
    SumCons(n, rest);
    SplitStep(sizes, b, 0, from);
  }

  lemma SplitTwo(x: nat, y: nat, b: seq<Byte>, from: nat)
    requires from + x + y <= |b|
    ensures Sum([x, y]) == x + y && Split([x, y], b[from..]) == [b[from..from + x], b[from + x..from + x + y]]
  {
    hide Sum, Split;
    SplitNone(b[from + x + y..]);
    SplitCons(y, [], b, from + x);
    assert [y] + [] == [y] && [x] + [y] == [x, y];
    SplitCons(x, [y], b, from);
  }

  lemma SplitThree(x: nat, y: nat, z: nat, b: seq<Byte>, from: nat)
    requires from + x + y + z <= |b|
    ensures Sum([x, y, z]) == x + y + z
    ensures var i, j := from + x, from + x + y;
            Split([x, y, z], b[from..]) == [b[from..i], b[i..j], b[j..j + z]]
  {
    hide Sum, Split;
    SplitTwo(y, z, b, from + x);
    assert [x] + [y, z] == [x, y, z];
    SplitCons(x, [y, z], b, from);
  }

  lemma SplitFour(w: nat, x: nat, y: nat, z: nat, b: seq<Byte>, from: nat)
    requires from + w + x + y + z <= |b|
    ensures Sum([w, x, y, z]) == w + x + y + z
    ensures var i, j, k := from + w, from + w + x, from + w + x + y;
            Split([w, x, y, z], b[from..]) == [b[from..i], b[i..j], b[j..k], b[k..k + z]]
  {
    hide Sum, Split;
    SplitThree(x, y, z, b, from + w);
    assert [w] + [x, y, z] == [w, x, y, z];
    SplitCons(w, [x, y, z], b, from);
  }

  lemma ListFieldsLie(b: seq<Byte>)
    requires |b| == 1029
    ensures Sum(Sizes(LListResponse)) <= |b|
    ensures Split(Sizes(LListResponse), b[0..])
         == [b[0..1], b[1..2], b[2..34], b[34..42], b[42..50], b[50..58], b[58..63]]
  {
    hide Sum, Split;
    var last := [8, 8, 8, MAX_PASSWORD];
    SplitFour(8, 8, 8, MAX_PASSWORD, b, 34);
    SplitCons(MAX_BOX_NAME, last, b, 2);
    SplitCons(1, [MAX_BOX_NAME] + last, b, 1);
    SplitCons(1, [1] + ([MAX_BOX_NAME] + last), b, 0);
    assert Sizes(LListResponse) == [1] + ([1] + ([MAX_BOX_NAME] + last));
  }

  /** Where the fields of each layout lie in a line. */
  lemma FieldsLie(l: Layout, b: seq<Byte>)
    requires |b| == 1029
    ensures Sum(Sizes(l)) <= |b|
    ensures Split(Sizes(l), b) == match l
              case LRequest => [b[0..1], b[1..257], b[257..289], b[289..294]]
              case LResponse => [b[0..1], b[1..5], b[5..1029]]
              case LListRequest => [b[0..1], b[1..257]]
              case LListResponse => [b[0..1], b[1..2], b[2..34], b[34..42], b[42..50], b[50..58], b[58..63]]
              case LMessage => [b[0..1], b[1..1025]]
              case LNewPassword => [b[0..1], b[1..257], b[257..289], b[289..294], b[294..299]]
  {
    hide Sum, Split;
    LayoutSums(l);
    assert b[0..] == b;
    match l
    case LRequest => SplitFour(1, MAX_PIPE_NAME, MAX_BOX_NAME, MAX_PASSWORD, b, 0);
    case LResponse => SplitThree(1, 4, MAX_MESSAGE, b, 0);
    case LListRequest => SplitTwo(1, MAX_PIPE_NAME, b, 0);
    case LListResponse => ListFieldsLie(b);
    case LMessage => SplitTwo(1, MAX_MESSAGE, b, 0);
    case LNewPassword =>
      SplitFour(MAX_PIPE_NAME, MAX_BOX_NAME, MAX_PASSWORD, MAX_PASSWORD, b, 1);
      SplitCons(1, [MAX_PIPE_NAME, MAX_BOX_NAME, MAX_PASSWORD, MAX_PASSWORD], b, 0);
      assert Sizes(l) == [1] + [MAX_PIPE_NAME, MAX_BOX_NAME, MAX_PASSWORD, MAX_PASSWORD];
  }

  /** What reader_stc makes of a line, by its first byte. */
  lemma DecodeByCode(b: seq<Byte>)
    requires |b| == 1029
    ensures var c := b[0];
            Decode(b)
            == if c == 4 || c == 6 || c == 12 || c == 14 then ResponseManager(c, Int32Value(b[1..5]), b[5..1029])
               else if c == 7 then ListRequest(c, b[1..257])
               else if c == 8 then
                 ListResponse(c, b[1], b[2..34], UInt64Value(b[34..42]), UInt64Value(b[42..50]), UInt64Value(b[50..58]),
                   b[58..63])
               else if c == 9 || c == 10 then Message(c, b[1..1025])
               else if c == 13 then NewPassword(Request(c, b[1..257], b[257..289], b[289..294]), b[294..299])
               else Request(c, b[1..257], b[257..289], b[289..294])
  {
    hide Split, Sum, Int32Value, UInt64Value;
    LayoutSums(LayoutOf(b[0]));
    FieldsLie(LayoutOf(b[0]), b);
  }

  /** Which records writer_stc takes under which code. */
  lemma WritableIff(r: Record, c: Byte)
    ensures HasLayout(r, LayoutOf(c)) <==>
            if c == 4 || c == 6 || c == 12 || c == 14 then r.ResponseManager?
            else if c == 7 then r.ListRequest?
            else if c == 8 then r.ListResponse?
            else if c == 9 || c == 10 then r.Message?
            else if c == 13 then r.NewPassword?
            else r.Request?
  {
  }

  /** Where writer_stc puts each field of a record; the rest of the line is zero. */
  lemma EncodeByKind(r: Record, l: Layout)
    requires r.Sized() && HasLayout(r, l)
    ensures var b := Encode(r, l);
            && |b| == 1029
            && match r
               case Request(c, pipe, box, password) =>
                 b[0] == c && b[1..257] == pipe && b[257..289] == box && b[289..294] == password && ZeroFrom(b, 294)
               case ResponseManager(c, ret, message) => b[0] == c && b[1..5] == Int32Bytes(ret) && b[5..1029] == message
               case ListRequest(c, pipe) => b[0] == c && b[1..257] == pipe && ZeroFrom(b, 257)
               case ListResponse(c, last, box, size, pubs, subs, password) =>
                 && b[0] == c && b[1] == last && b[2..34] == box && b[34..42] == UInt64Bytes(size)
                 && b[42..50] == UInt64Bytes(pubs) && b[50..58] == UInt64Bytes(subs) && b[58..63] == password
                 && ZeroFrom(b, 63)
               case Message(c, message) => b[0] == c && b[1..1025] == message && ZeroFrom(b, 1025)
               case NewPassword(q, password) =>
                 && b[0] == q.code && b[1..257] == q.pipeName && b[257..289] == q.boxName
                 && b[289..294] == q.boxPassword && b[294..299] == password && ZeroFrom(b, 299)
  {
    hide Split, Sum, Concat, Int32Bytes, UInt64Bytes;
    var b := Encode(r, l);
    var n := |Concat(Fields(r))|;
    EncodingFits(r, l);
    LayoutSums(l);
    FieldsFit(r, l);
    SplitConcat(Fields(r), Sizes(l), Zeros(MAX_LINE - n));
    FieldsLie(l, b);
    assert b[0..1] == [b[0]] && b[1..2] == [b[1]];
    assert ZeroFrom(b, n);
  }

  predicate ZeroFrom(b: seq<Byte>, n: nat) { forall k :: n <= k < |b| ==> b[k] == NUL }

  /** Integers are little-endian; int32_t is in two's complement. */
  lemma Int32Is(b: seq<Byte>)
    requires |b| == 4
    ensures var n := b[0] as int + 0x100 * b[1] as int + 0x1_0000 * b[2] as int + 0x100_0000 * b[3] as int;
            Int32Value(b) as int == if n < 0x8000_0000 then n else n - 0x1_0000_0000
  {
    ValueFour(b);
    hide Value;
  }

  lemma ValueFour(b: seq<Byte>)
    requires |b| == 4
    ensures Value(b) == b[0] as int + 0x100 * b[1] as int + 0x1_0000 * b[2] as int + 0x100_0000 * b[3] as int
  {
    assert b[1..][1..] == b[2..] && b[2..][1..] == b[3..] && b[3..][1..] == [];
    assert Value(b[3..]) == b[3] as int && Value(b[2..]) == b[2] as int + 0x100 * b[3] as int;
    assert Value(b[1..]) == b[1] as int + 0x100 * Value(b[2..]);
  }

  lemma UInt64Is(b: seq<Byte>)
    requires |b| == 8
    ensures UInt64Value(b) as int
         == b[0] as int + 0x100 * b[1] as int + 0x1_0000 * b[2] as int + 0x100_0000 * b[3] as int
            + 0x1_0000_0000 * (b[4] as int + 0x100 * b[5] as int + 0x1_0000 * b[6] as int + 0x100_0000 * b[7] as int)
  {
    ValueFour(b[4..]);
    ValueStep4(b);
    hide Value;
  }

  lemma ValueStep4(b: seq<Byte>)
    requires |b| == 8
    ensures Value(b)
         == b[0] as int + 0x100 * b[1] as int + 0x1_0000 * b[2] as int + 0x100_0000 * b[3] as int
            + 0x1_0000_0000 * Value(b[4..])
  {
    assert b[1..][1..] == b[2..] && b[2..][1..] == b[3..] && b[3..][1..] == b[4..];
    assert Value(b[3..]) == b[3] as int + 0x100 * Value(b[4..]);
    assert Value(b[2..]) == b[2] as int + 0x100 * Value(b[3..]);
    assert Value(b[1..]) == b[1] as int + 0x100 * Value(b[2..]);
  }

  // ---- the writers ----

  /** Stores in sequence are one store. */
  lemma StoreAppend(m: seq<Byte>, a: seq<Byte>, b: seq<Byte>)
    requires |a| + |b| <= |m|
    ensures Store(Store(m, 0, a), |a|, b) == Store(m, 0, a + b)
  {
  }

  method Memset(buffer: array<Byte>)
    modifies buffer
    ensures buffer[..] == Zeros(buffer.Length)
  {
    for i := 0 to buffer.Length
      invariant forall k :: 0 <= k < i ==> buffer[k] == NUL
    {
      buffer[i] := NUL;
    }
  }

  method Memcpy(buffer: array<Byte>, offset: nat, bytes: seq<Byte>)
    requires offset + |bytes| <= buffer.Length
    modifies buffer
    ensures buffer[..] == Store(old(buffer[..]), offset, bytes)
  {
    for i := 0 to |bytes|
      invariant forall k :: 0 <= k < buffer.Length ==>
                  buffer[k] == if offset <= k < offset + i then bytes[k - offset] else old(buffer[k])
    {
      buffer[offset + i] := bytes[i];
    }
    assert buffer[..] == Store(old(buffer[..]), offset, bytes);
  }

  /** The memcpy calls of one encoder: each field at the running offset. */
  method WriteFields(fields: seq<seq<Byte>>, buffer: array<Byte>)
    requires |Concat(fields)| <= buffer.Length
    modifies buffer
    ensures buffer[..] == Store(old(buffer[..]), 0, Concat(fields))
  {
    var offset := 0;
    ghost var written := [];
    assert Store(old(buffer[..]), 0, []) == old(buffer[..]);
    assert [] + Concat(fields) == Concat(fields);
    for i := 0 to |fields|
      invariant offset == |written| && written + Concat(fields[i..]) == Concat(fields)
      invariant buffer[..] == Store(old(buffer[..]), 0, written)
    {
      assert fields[i..][1..] == fields[i + 1..];
      assert written + (fields[i] + Concat(fields[i + 1..])) == (written + fields[i]) + Concat(fields[i + 1..]);
      StoreAppend(old(buffer[..]), written, fields[i]);
      Memcpy(buffer, offset, fields[i]);
      offset := offset + |fields[i]|;
      written := written + fields[i];
    }
    assert fields[|fields|..] == [] && written + [] == written;
  }

  /** writer_stc: clear the line, then encode by the code the caller passes. */
  method WriterStc(r: Record, codePipe: Byte, buffer: array<Byte>)
    requires buffer.Length == MAX_LINE && r.Sized() && HasLayout(r, LayoutOf(codePipe))
    modifies buffer
    ensures buffer[..] == Encode(r, LayoutOf(codePipe))
  {
    Memset(buffer);
    EncodingFits(r, LayoutOf(codePipe));
    ghost var blank := buffer[..];
    if codePipe == 4 || codePipe == 6 || codePipe == 12 || codePipe == 14 {
      WriteFields([[r.code], Int32Bytes(r.returnCode), r.errorMessage], buffer);
    } else if codePipe == 7 {
      WriteFields([[r.code], r.pipeName], buffer);
    } else if codePipe == 8 {
      WriteFields([[r.code], [r.last], r.boxName, UInt64Bytes(r.boxSize), UInt64Bytes(r.nPubs), UInt64Bytes(r.nSubs),
                   r.boxPassword], buffer);
    } else if codePipe == 9 || codePipe == 10 {
      WriteFields([[r.code], r.message], buffer);
    } else if codePipe == 13 {
      WriteFields([[r.request.code], r.request.pipeName, r.request.boxName, r.request.boxPassword, r.newPassword],
        buffer);
    } else {
      WriteFields([[r.code], r.pipeName, r.boxName, r.boxPassword], buffer);
    }
    assert buffer[..] == Store(blank, 0, Concat(Fields(r)));
    assert Encode(r, LayoutOf(codePipe)) == Store(blank, 0, Concat(Fields(r)));
  }

  // ---- the readers ----

  lemma SplitStep(sizes: seq<nat>, b: seq<Byte>, i: nat, offset: nat)
    requires i < |sizes| && offset + Sum(sizes[i..]) <= |b|
    ensures Sum(sizes[i..]) == sizes[i] + Sum(sizes[i + 1..])
    ensures Split(sizes[i..], b[offset..])
         == [b[offset..offset + sizes[i]]] + Split(sizes[i + 1..], b[offset + sizes[i]..])
  {
    var n := sizes[i];
    assert sizes[i..][1..] == sizes[i + 1..];
    assert b[offset..][n..] == b[offset + n..] && b[offset..][..n] == b[offset..offset + n];
  }

  lemma SplitNone(b: seq<Byte>)
    ensures Sum([]) == 0 && Split([], b) == []
  {
  }

  lemma Regroup(done: seq<seq<Byte>>, field: seq<Byte>, rest: seq<seq<Byte>>)
    ensures done + ([field] + rest) == (done + [field]) + rest && done + [] == done && [] + done == done
  {
  }

  /** The memcpy calls of one decoder: each field from the running offset. */
  method ReadFields(sizes: seq<nat>, buffer: array<Byte>) returns (fields: seq<seq<Byte>>)
    requires Sum(sizes) <= buffer.Length
    ensures fields == Split(sizes, buffer[..])
  {
    fields := [];
    var offset: nat := 0;
    ghost var b := buffer[..];
    assert b[0..] == b && sizes[0..] == sizes;
    hide Split, Sum;
    Regroup(Split(sizes, b), [], []);
    for i := 0 to |sizes|
      invariant offset + Sum(sizes[i..]) <= |b| == buffer.Length
      invariant fields + Split(sizes[i..], b[offset..]) == Split(sizes, b)
    {
      var field := buffer[offset..offset + sizes[i]];
      SplitStep(sizes, b, i, offset);
      assert field == b[offset..offset + sizes[i]];
      Regroup(fields, field, Split(sizes[i + 1..], b[offset + sizes[i]..]));
      fields := fields + [field];
      offset := offset + sizes[i];
    }
    assert sizes[|sizes|..] == [];
    SplitNone(b[offset..]);
    Regroup(fields, [], []);
  }

  /** reader_stc: decode by the code in the first byte. */
  method ReaderStc(buffer: array<Byte>) returns (r: Record)
    requires buffer.Length == MAX_LINE
    ensures r == Decode(buffer[..])
  {
    var code := buffer[0];
    LayoutSums(LayoutOf(code));
    var f;
    if code == 4 || code == 6 || code == 12 || code == 14 {
      f := ReadFields([1, 4, MAX_MESSAGE], buffer);
      r := ResponseManager(code, Int32Value(f[1]), f[2]);
    } else if code == 7 {
      f := ReadFields([1, MAX_PIPE_NAME], buffer);
      r := ListRequest(code, f[1]);
    } else if code == 8 {
      f := ReadFields([1, 1, MAX_BOX_NAME, 8, 8, 8, MAX_PASSWORD], buffer);
      r := ListResponse(code, f[1][0], f[2], UInt64Value(f[3]), UInt64Value(f[4]), UInt64Value(f[5]), f[6]);
    } else if code == 9 || code == 10 {
      f := ReadFields([1, MAX_MESSAGE], buffer);
      r := Message(code, f[1]);
    } else if code == 13 {
      f := ReadFields([1, MAX_PIPE_NAME, MAX_BOX_NAME, MAX_PASSWORD, MAX_PASSWORD], buffer);
      r := NewPassword(Request(code, f[1], f[2], f[3]), f[4]);
    } else {
      f := ReadFields([1, MAX_PIPE_NAME, MAX_BOX_NAME, MAX_PASSWORD], buffer);
      r := Request(code, f[1], f[2], f[3]);
    }
    assert f[0] == buffer[..][..1] && f[0][0] == code;
  }
}
