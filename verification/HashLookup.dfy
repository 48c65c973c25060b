/** Looking strings up in remote PHP hash tables, down to `$_SERVER[key]`. */
module HashLookup {
  import opened Wrappers
  import opened Memory
  import opened StackWalker
  import opened CallStackLayout

  const HT_AR_DATA := 16
  const HT_N_NUM_USED := 24
  const BUCKET_SIZE := 32
  const BUCKET_VAL := 0
  const BUCKET_KEY := 24
  const ZVAL_VALUE := 0
  const ZVAL_TYPE_INFO := 8
  const IS_UNDEF := 0
  const IS_STRING := 6
  const IS_ARRAY := 7
  const IS_REFERENCE := 10
  const REF_VAL := 16
  const MAX_BUCKETS := 4096

  function Tag(typeInfo: nat): nat {
    typeInfo % 256
  }

  function BucketAt(arData: nat, i: nat): u64 {
    Add(arData, i * BUCKET_SIZE)
  }

  // ----- One bucket -----

  datatype Verdict = Skip | Answer(result: Result<Option<string>>)

  /** The loop body of `ht_get_string`: skip the bucket or answer for good. */
  function Examine(mem: Mem, decode: Decoder, b: nat, wantKey: string): Verdict {
    var tag := Tag(ReadU32(mem, Add(b, BUCKET_VAL + ZVAL_TYPE_INFO)).GetOr(0));
    if tag == IS_UNDEF then Skip
    else
      var keyPtr := ReadU64(mem, Add(b, BUCKET_KEY)).GetOr(0);
      if keyPtr == 0 then Skip
      else
        var key := ReadZendString(mem, decode, keyPtr);
        if key.Err? || key.value != wantKey then Skip
        else Answer(ValueOf(mem, decode, b, tag))
  }

  function StringAt(mem: Mem, decode: Decoder, addr: nat): Result<Option<string>> {
    var ptr :- ReadU64(mem, addr);
    var s :- ReadZendString(mem, decode, ptr);
    Ok(Some(s))
  }

  function ValueOf(mem: Mem, decode: Decoder, b: nat, tag: nat): Result<Option<string>> {
    if tag == IS_REFERENCE then
      var refPtr :- ReadU64(mem, Add(b, BUCKET_VAL + ZVAL_VALUE));
      if refPtr == 0 then Ok(None)
      else
        var innerTag := Tag(ReadU32(mem, Add(refPtr, REF_VAL + ZVAL_TYPE_INFO)).GetOr(0));
        if innerTag == IS_STRING then StringAt(mem, decode, Add(refPtr, REF_VAL + ZVAL_VALUE)) else Ok(None)
    else if tag == IS_STRING then StringAt(mem, decode, Add(b, BUCKET_VAL + ZVAL_VALUE))
    else Ok(None)
  }

  /** The first verdict among buckets i..n. */
  function Search(mem: Mem, decode: Decoder, arData: nat, i: nat, n: nat, wantKey: string): Result<Option<string>>
    decreases n - i
  {
    if i >= n then Ok(None)
    else
      match Examine(mem, decode, BucketAt(arData, i), wantKey)
      case Skip => Search(mem, decode, arData, i + 1, n, wantKey)
      case Answer(r) => r
  }

  function HtGetStringOf(mem: Mem, decode: Decoder, htAddr: nat, wantKey: string): Result<Option<string>> {
    var nUsed :- ReadU32(mem, Add(htAddr, HT_N_NUM_USED));
    var arData :- ReadU64(mem, Add(htAddr, HT_AR_DATA));
    if arData == 0 || nUsed == 0 then Ok(None)
    else Search(mem, decode, arData, 0, if nUsed <= MAX_BUCKETS then nUsed else MAX_BUCKETS, wantKey)
  }

  /** `ht_get_string`. */
  method HtGetString(mem: Mem, decode: Decoder, htAddr: nat, wantKey: string) returns (r: Result<Option<string>>)
    ensures r == HtGetStringOf(mem, decode, htAddr, wantKey)
  {
    hide ReadZendString, ReadU32, ReadU64;
    var nUsed := ReadU32(mem, Add(htAddr, HT_N_NUM_USED));
    if nUsed.Err? { return Err; }
    var arData := ReadU64(mem, Add(htAddr, HT_AR_DATA));
    if arData.Err? { return Err; }
    if arData.value == 0 || nUsed.value == 0 {
      return Ok(None);
    }
    var n := if nUsed.value <= MAX_BUCKETS then nUsed.value else MAX_BUCKETS;
    ghost var goal := Search(mem, decode, arData.value, 0, n, wantKey);
    for i := 0 to n
      invariant goal == Search(mem, decode, arData.value, i, n, wantKey)
    {
      var b := BucketAt(arData.value, i);
      var tag := Tag(ReadU32(mem, Add(b, BUCKET_VAL + ZVAL_TYPE_INFO)).GetOr(0));
      if tag == IS_UNDEF { continue; }
      var keyPtr := ReadU64(mem, Add(b, BUCKET_KEY)).GetOr(0);
      if keyPtr == 0 { continue; }
      var key := ReadZendString(mem, decode, keyPtr);
      if key.Err? { continue; }
      if key.value != wantKey { continue; }
      var realTag := tag;
      if tag == IS_REFERENCE {
        var refPtr := ReadU64(mem, Add(b, BUCKET_VAL + ZVAL_VALUE));
        if refPtr.Err? { return Err; }
        if refPtr.value == 0 { return Ok(None); }
        var innerTag := Tag(ReadU32(mem, Add(refPtr.value, REF_VAL + ZVAL_TYPE_INFO)).GetOr(0));
        if innerTag == IS_STRING {
          return StringAt(mem, decode, Add(refPtr.value, REF_VAL + ZVAL_VALUE));
        }
        realTag := innerTag;
      }
      if realTag == IS_STRING {
        return StringAt(mem, decode, Add(b, BUCKET_VAL + ZVAL_VALUE));
      }
      return Ok(None);
    }
    return Ok(None);
  }

  // ----- Abstract tables and their layout -----

  /** A string, an array at an address, a reference to another value, or anything else by its tag and payload. */
  datatype Value = StrV(s: Str) | ArrayV(ptr: u64) | RefV(ptr: u64, inner: Value) | OtherV(tag: byte, payload: u64)

  /** A bucket; a deleted one keeps whatever key pointer it had. */
  datatype Bucket = Bucket(live: bool, key: Option<Str>, value: Value)

  // Tags and offsets are PHP's own, written out: the constants above have to agree with them.

  function TagOf(v: Value): byte {
    match v
    case StrV(_) => 6
    case ArrayV(_) => 7
    case RefV(_, _) => 10
    case OtherV(tag, _) => tag
  }

  function PayloadOf(v: Value): u64 {
    match v
    case StrV(s) => s.ptr
    case ArrayV(ptr) => ptr
    case RefV(ptr, _) => ptr
    case OtherV(_, payload) => payload
  }

  /** The tag is the low byte of four; the others carry flags. */
  ghost predicate TagHeld(mem: Mem, addr: nat, tag: byte) {
    Readable(mem, Add(addr, 8), 4) && mem[Add(addr, 8)] == tag
  }

  ghost predicate ValueHeld(mem: Mem, addr: nat, v: Value)
    decreases v
  {
    && TagHeld(mem, addr, TagOf(v)) && Holds64(mem, Add(addr, 0), PayloadOf(v))
    && match v {
         case StrV(s) => StrHeld(mem, Some(s))
         case ArrayV(ptr) => ptr != 0
         case RefV(ptr, inner) => ptr != 0 && ValueHeld(mem, Add(ptr, 16), inner)
         case OtherV(tag, _) => tag !in {6, 7, 10}
       }
  }

  ghost predicate KeyHeld(mem: Mem, b: nat, bucket: Bucket) {
    StrHeld(mem, bucket.key) && Holds64(mem, Add(b, 24), StrPtr(bucket.key))
  }

  /** Of a deleted bucket only its tag is laid out. */
  ghost predicate BucketHeld(mem: Mem, b: nat, bucket: Bucket) {
    if bucket.live then KeyHeld(mem, b, bucket) && ValueHeld(mem, b, bucket.value) && TagOf(bucket.value) != 0
    else TagHeld(mem, b, 0)
  }

  /** The i-th of the 32-byte buckets. */
  function Slot(arData: nat, i: nat): u64 {
    Add(arData, 32 * i)
  }

  /** Only the first 4096 buckets matter. */
  ghost predicate TableHeld(mem: Mem, htAddr: nat, arData: u64, buckets: seq<Bucket>) {
    && Holds32(mem, Add(htAddr, 24), |buckets|)
    && Holds64(mem, Add(htAddr, 16), arData)
    && (arData != 0 || buckets == [])
    && forall i :: 0 <= i < |buckets| && i < 4096 ==> BucketHeld(mem, Slot(arData, i), buckets[i])
  }

  // ----- The abstract lookup -----

  predicate Keyed(decode: Decoder, bucket: Bucket, key: string) {
    TextOf(decode, bucket.key) == Some(key)
  }

  function Shown(decode: Decoder, v: Value): Option<string> {
    match v
    case StrV(s) => Some(Text(decode, s.bytes))
    case RefV(_, inner) => if inner.StrV? then Some(Text(decode, inner.s.bytes)) else None
    case _ => None
  }

  /** The value of the first live bucket with this key. */
  function Find(decode: Decoder, buckets: seq<Bucket>, key: string): Option<Value> {
    if buckets == [] then None
    else if buckets[0].live && Keyed(decode, buckets[0], key) then Some(buckets[0].value)
    else Find(decode, buckets[1..], key)
  }

  function FindString(decode: Decoder, buckets: seq<Bucket>, key: string): Option<string> {
    var v :- Find(decode, buckets, key);
    Shown(decode, v)
  }

  function Examined(buckets: seq<Bucket>): seq<Bucket> {
    buckets[..if |buckets| <= 4096 then |buckets| else 4096]
  }

  // ----- The remote lookup is the abstract one -----

  /** The code's mask leaves the low byte, whatever the flags. */
  lemma TagIsLowByte(mem: Mem, addr: nat)
    ensures var r := ReadU32(mem, addr);
            && (r.Ok? <==> Readable(mem, addr, 4))
            && (r.Ok? ==> Tag(r.value) == mem[addr])
            && Tag(r.GetOr(0)) == if Readable(mem, addr, 4) then mem[addr] else 0
  {
    if Readable(mem, addr, 4) {
      var bytes := Read(mem, addr, 4).value;
      assert LeValue(bytes[0..4]) == bytes[0] + 256 * LeValue(bytes[0..4][1..]);
    }
  }

  lemma TagRead(mem: Mem, addr: nat, tag: byte)
    requires TagHeld(mem, addr, tag)
    ensures ReadU32(mem, Add(addr, ZVAL_TYPE_INFO)).Ok?
    ensures Tag(ReadU32(mem, Add(addr, ZVAL_TYPE_INFO)).GetOr(0)) == tag
  {
    hide ReadU32, Tag, Add;
    TagIsLowByte(mem, Add(addr, 8));
  }

  lemma ZvalRead(mem: Mem, addr: nat, v: Value)
    requires ValueHeld(mem, addr, v)
    ensures ReadU32(mem, Add(addr, ZVAL_TYPE_INFO)).Ok?
    ensures Tag(ReadU32(mem, Add(addr, ZVAL_TYPE_INFO)).GetOr(0)) == TagOf(v)
    ensures ReadU64(mem, Add(addr, ZVAL_VALUE)) == Ok(PayloadOf(v))
  {
    hide ReadU32, ReadU64, Holds64, Add, TagHeld, Tag;
    TagRead(mem, addr, TagOf(v));
    U64Held(mem, Add(addr, ZVAL_VALUE), PayloadOf(v));
  }

  lemma ValueParts(mem: Mem, addr: nat, v: Value)
    requires ValueHeld(mem, addr, v)
    ensures v.StrV? ==> StrHeld(mem, Some(v.s))
    ensures v.ArrayV? || v.RefV? ==> v.ptr != 0
    ensures v.RefV? ==> ValueHeld(mem, Add(v.ptr, 16), v.inner)
    ensures v.OtherV? ==> v.tag !in {6, 7, 10}
  {
  }

  lemma AddAdd(a: nat, b: nat, c: nat)
    ensures Add(Add(a, b), c) == Add(a, b + c)
  {
  }

  lemma ValueRead(mem: Mem, decode: Decoder, b: nat, v: Value)
    requires ValueHeld(mem, b, v)
    ensures ValueOf(mem, decode, b, TagOf(v)) == Ok(Shown(decode, v))
  {
    hide ReadU32, ReadU64, ReadZendString, StrHeld, Text, Add, ValueHeld, Tag;
    ValueParts(mem, b, v);
    ZvalRead(mem, b, v);
    match v
    case StrV(s) => StrRead(mem, decode, s);
    case RefV(ptr, inner) =>
      var at := Add(ptr, REF_VAL);
      ValueParts(mem, at, inner);
      ZvalRead(mem, at, inner);
      AddAdd(ptr, REF_VAL, ZVAL_TYPE_INFO);
      AddAdd(ptr, REF_VAL, ZVAL_VALUE);
      if inner.StrV? { StrRead(mem, decode, inner.s); }
    case ArrayV(_) =>
    case OtherV(_, _) =>
  }

  lemma KeyRead(mem: Mem, decode: Decoder, b: nat, bucket: Bucket)
    requires KeyHeld(mem, b, bucket)
    ensures ReadU64(mem, Add(b, BUCKET_KEY)) == Ok(StrPtr(bucket.key))
    ensures bucket.key.Some? ==>
              && StrPtr(bucket.key) != 0
              && ReadZendString(mem, decode, StrPtr(bucket.key)) == Ok(Text(decode, bucket.key.value.bytes))
  {
    hide ReadU64, ReadZendString, StrHeld, Holds64, Text, Add;
    U64Held(mem, Add(b, BUCKET_KEY), StrPtr(bucket.key));
    if bucket.key.Some? {
      StrRead(mem, decode, bucket.key.value);
      StrNonNull(mem, bucket.key);
    }
  }

  lemma BucketExamined(mem: Mem, decode: Decoder, b: nat, bucket: Bucket, key: string)
    requires BucketHeld(mem, b, bucket)
    ensures Examine(mem, decode, b, key) ==
            if bucket.live && Keyed(decode, bucket, key) then Answer(Ok(Shown(decode, bucket.value))) else Skip
  {
    hide ReadU32, ReadU64, ReadZendString, KeyHeld, TagHeld, ValueHeld, Text, Shown, ValueOf, Add, Tag;
    if bucket.live {
      KeyRead(mem, decode, b, bucket);
      ZvalRead(mem, b, bucket.value);
      ValueRead(mem, decode, b, bucket.value);
    } else {
      TagRead(mem, b, IS_UNDEF);
    }
  }

  lemma BucketIsSlot(arData: nat, i: nat)
    ensures BucketAt(arData, i) == Slot(arData, i)
  {
  }

  lemma {:induction false} SearchFinds(mem: Mem, decode: Decoder, arData: u64, buckets: seq<Bucket>, i: nat, n: nat,
                                       key: string)
    requires i <= n <= |buckets|
    requires forall j :: i <= j < n ==> BucketHeld(mem, Slot(arData, j), buckets[j])
    ensures Search(mem, decode, arData, i, n, key) == Ok(FindString(decode, buckets[i..n], key))
    decreases n - i
  {
    hide Examine, BucketHeld, Shown, Keyed, BucketAt, Slot;
    if i < n {
      BucketIsSlot(arData, i);
      BucketExamined(mem, decode, Slot(arData, i), buckets[i], key);
      SearchFinds(mem, decode, arData, buckets, i + 1, n, key);
      assert buckets[i..n][1..] == buckets[i + 1..n];
    }
  }

  /**
   * On a table laid out in memory the lookup returns the string of the first live bucket with that key
   * among the first 4096 buckets, through at most one reference, and nothing when there is none or it
   * is not a string.
   */
  lemma HtGetStringFinds(mem: Mem, decode: Decoder, htAddr: nat, arData: u64, buckets: seq<Bucket>, key: string)
    requires TableHeld(mem, htAddr, arData, buckets)
    ensures HtGetStringOf(mem, decode, htAddr, key) == Ok(FindString(decode, Examined(buckets), key))
    ensures |buckets| <= 4096 ==> HtGetStringOf(mem, decode, htAddr, key) == Ok(FindString(decode, buckets, key))
  {
    hide ReadU32, ReadU64, Holds32, Holds64, BucketHeld, Search, Keyed, Shown;
    U32Held(mem, Add(htAddr, HT_N_NUM_USED), |buckets|);
    U64Held(mem, Add(htAddr, HT_AR_DATA), arData);
    var n := if |buckets| <= MAX_BUCKETS then |buckets| else MAX_BUCKETS;
    SearchFinds(mem, decode, arData, buckets, 0, n, key);
    assert buckets[..|buckets|] == buckets;
  }

  /** What `Find` means, without its recursion: the first live bucket with the key, if any. */
  lemma {:induction false} FindIsFirst(decode: Decoder, buckets: seq<Bucket>, key: string)
    ensures Find(decode, buckets, key).Some? <==>
            exists i :: 0 <= i < |buckets| && buckets[i].live && Keyed(decode, buckets[i], key)
    ensures forall i :: 0 <= i < |buckets| && buckets[i].live && Keyed(decode, buckets[i], key) &&
                        (forall j :: 0 <= j < i ==> !(buckets[j].live && Keyed(decode, buckets[j], key)))
                        ==> Find(decode, buckets, key) == Some(buckets[i].value)
  {
    hide Keyed;
    if buckets != [] && !(buckets[0].live && Keyed(decode, buckets[0], key)) {
      var rest := buckets[1..];
      FindIsFirst(decode, rest, key);
      if i :| 0 <= i < |buckets| && buckets[i].live && Keyed(decode, buckets[i], key) {
        assert rest[i - 1] == buckets[i];
      }
      forall i | 0 <= i < |buckets| && buckets[i].live && Keyed(decode, buckets[i], key) &&
                 (forall j :: 0 <= j < i ==> !(buckets[j].live && Keyed(decode, buckets[j], key)))
        ensures Find(decode, buckets, key) == Some(buckets[i].value)
      {
        assert rest[i - 1] == buckets[i];
        assert forall j :: 0 <= j < i - 1 ==> rest[j] == buckets[j + 1];
      }
    }
  }

  // ----- The lookup on arbitrary memory -----

  function TagByte(mem: Mem, zval: nat): byte {
    var addr := Add(zval, 8);
    if Readable(mem, addr, 4) then mem[addr] else 0
  }

  /** The bucket's key can be read and is `key`. */
  predicate KeyIs(mem: Mem, decode: Decoder, b: nat, key: string) {
    var ptr := Peek(mem, Add(b, 24));
    ptr != 0 && StringReadable(mem, ptr) && TextAt(mem, decode, ptr) == key
  }

  predicate Matches(mem: Mem, decode: Decoder, b: nat, key: string) {
    TagByte(mem, b) != 0 && KeyIs(mem, decode, b, key)
  }

  /** The string a zval points to; an error if the pointer or the string cannot be read. */
  function StringIn(mem: Mem, decode: Decoder, zval: nat): Result<Option<string>> {
    if !Readable(mem, zval, 8) || !StringReadable(mem, Peek(mem, zval)) then Err
    else Ok(Some(TextAt(mem, decode, Peek(mem, zval))))
  }

  /** What a matching bucket answers: its string, the string it refers to, or nothing. */
  function AnswerIn(mem: Mem, decode: Decoder, b: u64): Result<Option<string>> {
    if TagByte(mem, b) == 6 then StringIn(mem, decode, b)
    else if TagByte(mem, b) != 10 then Ok(None)
    else if !Readable(mem, b, 8) then Err
    else
      var ref := Peek(mem, b);
      if ref == 0 || TagByte(mem, Add(ref, 16)) != 6 then Ok(None) else StringIn(mem, decode, Add(ref, 16))
  }

  lemma StringAtReads(mem: Mem, decode: Decoder, addr: u64)
    ensures StringAt(mem, decode, addr) == StringIn(mem, decode, addr)
  {
    hide ReadZendString, StringReadable, TextAt, ReadU64, Peek;
    PeekReads(mem, addr);
    StringIsReadable(mem, decode, Peek(mem, addr));
  }

  lemma AddZero(b: u64)
    ensures Add(b, 0) == b
  {
  }

  lemma ValueOfAnswers(mem: Mem, decode: Decoder, b: u64)
    ensures ValueOf(mem, decode, b, TagByte(mem, b)) == AnswerIn(mem, decode, b)
  {
    hide StringAt, StringIn, ReadU64, ReadU32, Peek, Tag, Add;
    AddZero(b);
    StringAtReads(mem, decode, b);
    PeekReads(mem, b);
    var ref := Peek(mem, b);
    AddAdd(ref, 16, 8);
    AddAdd(ref, 16, 0);
    TagIsLowByte(mem, Add(ref, 24));
    StringAtReads(mem, decode, Add(ref, 16));
  }

  lemma KeyIsRead(mem: Mem, decode: Decoder, b: nat, key: string)
    ensures var ptr := ReadU64(mem, Add(b, BUCKET_KEY)).GetOr(0);
            KeyIs(mem, decode, b, key) <==> ptr != 0 && ReadZendString(mem, decode, ptr) == Ok(key)
  {
    hide ReadZendString, StringReadable, TextAt, ReadU64, Peek, Add;
    PeekReads(mem, Add(b, 24));
    StringIsReadable(mem, decode, Peek(mem, Add(b, 24)));
  }

  lemma ExamineAnswers(mem: Mem, decode: Decoder, b: u64, key: string)
    ensures Examine(mem, decode, b, key) ==
            if Matches(mem, decode, b, key) then Answer(AnswerIn(mem, decode, b)) else Skip
  {
    hide KeyIs, AnswerIn, ValueOf, ReadZendString, ReadU64, ReadU32, Tag, Add;
    KeyIsRead(mem, decode, b, key);
    TagIsLowByte(mem, Add(b, 8));
    ValueOfAnswers(mem, decode, b);
  }

  predicate MatchesAt(mem: Mem, decode: Decoder, arData: u64, j: nat, key: string) {
    Matches(mem, decode, Slot(arData, j), key)
  }

  /** Bucket k is the first of n to match. */
  ghost predicate FirstMatch(mem: Mem, decode: Decoder, arData: u64, k: nat, n: nat, key: string) {
    && k < n && MatchesAt(mem, decode, arData, k, key)
    && forall j :: 0 <= j < k ==> !MatchesAt(mem, decode, arData, j, key)
  }

  lemma SearchStep(mem: Mem, decode: Decoder, arData: u64, i: nat, n: nat, key: string)
    requires i < n
    ensures Search(mem, decode, arData, i, n, key) ==
            if MatchesAt(mem, decode, arData, i, key) then AnswerIn(mem, decode, Slot(arData, i))
            else Search(mem, decode, arData, i + 1, n, key)
  {
    hide Examine, Matches, AnswerIn, BucketAt, Slot;
    BucketIsSlot(arData, i);
    ExamineAnswers(mem, decode, Slot(arData, i), key);
  }

  lemma {:induction false} SearchMisses(mem: Mem, decode: Decoder, arData: u64, i: nat, n: nat, key: string)
    requires forall j :: i <= j < n ==> !MatchesAt(mem, decode, arData, j, key)
    ensures Search(mem, decode, arData, i, n, key) == Ok(None)
    decreases n - i
  {
    hide MatchesAt, Examine;
    if i < n {
      SearchStep(mem, decode, arData, i, n, key);
      SearchMisses(mem, decode, arData, i + 1, n, key);
    }
  }

  lemma {:induction false} SearchHits(mem: Mem, decode: Decoder, arData: u64, i: nat, k: nat, n: nat, key: string)
    requires i <= k && FirstMatch(mem, decode, arData, k, n, key)
    ensures Search(mem, decode, arData, i, n, key) == AnswerIn(mem, decode, Slot(arData, k))
    decreases k - i
  {
    hide MatchesAt, AnswerIn, Search;
    SearchStep(mem, decode, arData, i, n, key);
    if i < k { SearchHits(mem, decode, arData, i + 1, k, n, key); }
  }

  /** How many buckets are looked at: as many as are in use, up to 4096. */
  function BucketsUsed(mem: Mem, htAddr: nat): nat {
    var used := ReadU32(mem, Add(htAddr, 24)).GetOr(0);
    if used <= 4096 then used else 4096
  }

  ghost predicate HeaderReadable(mem: Mem, htAddr: nat) {
    Readable(mem, Add(htAddr, 24), 4) && Readable(mem, Add(htAddr, 16), 8)
  }

  /**
   * On any memory: an error if the header cannot be read, nothing if no bucket looked at matches, and otherwise
   * the first matching bucket's answer, which may again be an error.
   */
  lemma HtGetStringAnywhere(mem: Mem, decode: Decoder, htAddr: nat, key: string)
    ensures !HeaderReadable(mem, htAddr) ==> HtGetStringOf(mem, decode, htAddr, key) == Err
    ensures HeaderReadable(mem, htAddr) ==>
              var arData, n := Peek(mem, Add(htAddr, 16)), BucketsUsed(mem, htAddr);
              && (arData == 0 || (forall j :: 0 <= j < n ==> !MatchesAt(mem, decode, arData, j, key)) ==>
                    HtGetStringOf(mem, decode, htAddr, key) == Ok(None))
              && forall k: nat :: arData != 0 && FirstMatch(mem, decode, arData, k, n, key) ==>
                   HtGetStringOf(mem, decode, htAddr, key) == AnswerIn(mem, decode, Slot(arData, k))
  {
    hide Search, MatchesAt, AnswerIn, Slot, Add, U64At, U32At;
    PeekReads(mem, Add(htAddr, 16));
    var arData, n := Peek(mem, Add(htAddr, 16)), BucketsUsed(mem, htAddr);
    if forall j :: 0 <= j < n ==> !MatchesAt(mem, decode, arData, j, key) {
      SearchMisses(mem, decode, arData, 0, n, key);
    }
    forall k: nat | FirstMatch(mem, decode, arData, k, n, key)
      ensures Search(mem, decode, arData, 0, n, key) == AnswerIn(mem, decode, Slot(arData, k))
    {
      SearchHits(mem, decode, arData, 0, k, n, key);
    }
  }

  // ----- $_SERVER -----

  /** The loop body of `request_var_impl`. Unlike `Examine` it does not skip deleted buckets. */
  function ExamineServer(mem: Mem, decode: Decoder, b: nat, key: string): Verdict {
    var keyPtr := ReadU64(mem, Add(b, BUCKET_KEY)).GetOr(0);
    if keyPtr == 0 then Skip
    else
      var k := ReadZendString(mem, decode, keyPtr);
      if k.Err? || k.value != "_SERVER" then Skip else Answer(ServerIn(mem, decode, b, key))
  }

  function ServerIn(mem: Mem, decode: Decoder, b: nat, key: string): Result<Option<string>> {
    var typeInfo :- ReadU32(mem, Add(b, BUCKET_VAL + ZVAL_TYPE_INFO));
    var tag := Tag(typeInfo);
    if tag == IS_REFERENCE then
      var r :- ReadU64(mem, Add(b, BUCKET_VAL + ZVAL_VALUE));
      var arrayPtr :- ReadU64(mem, Add(r, REF_VAL + ZVAL_VALUE));
      if arrayPtr == 0 then Ok(None) else HtGetStringOf(mem, decode, arrayPtr, key)
    else if tag == IS_ARRAY then
      var arrayPtr :- ReadU64(mem, Add(b, BUCKET_VAL + ZVAL_VALUE));
      if arrayPtr == 0 then Ok(None) else HtGetStringOf(mem, decode, arrayPtr, key)
    else Ok(None)
  }

  function SearchServer(mem: Mem, decode: Decoder, arData: nat, i: nat, n: nat, key: string): Result<Option<string>>
    decreases n - i
  {
    if i >= n then Ok(None)
    else
      match ExamineServer(mem, decode, BucketAt(arData, i), key)
      case Skip => SearchServer(mem, decode, arData, i + 1, n, key)
      case Answer(r) => r
  }

  function RequestVarOf(mem: Mem, decode: Decoder, symbolTable: nat, key: string): Result<Option<string>> {
    var nUsed :- ReadU32(mem, Add(symbolTable, HT_N_NUM_USED));
    var arData :- ReadU64(mem, Add(symbolTable, HT_AR_DATA));
    if arData == 0 then Ok(None)
    else SearchServer(mem, decode, arData, 0, if nUsed <= MAX_BUCKETS then nUsed else MAX_BUCKETS, key)
  }

  /** `request_var`: errors and absent keys look the same to the caller. */
  method RequestVar(mem: Mem, decode: Decoder, symbolTable: nat, key: string) returns (r: Option<string>)
    ensures r == RequestVarOf(mem, decode, symbolTable, key).GetOr(None)
  {
    hide ReadZendString, ReadU32, ReadU64, HtGetStringOf;
    var nUsed := ReadU32(mem, Add(symbolTable, HT_N_NUM_USED));
    if nUsed.Err? { return None; }
    var arData := ReadU64(mem, Add(symbolTable, HT_AR_DATA));
    if arData.Err? { return None; }
    if arData.value == 0 { return None; }
    var n := if nUsed.value <= MAX_BUCKETS then nUsed.value else MAX_BUCKETS;
    ghost var goal := SearchServer(mem, decode, arData.value, 0, n, key);
    for i := 0 to n
      invariant goal == SearchServer(mem, decode, arData.value, i, n, key)
    {
      var b := BucketAt(arData.value, i);
      var keyPtr := ReadU64(mem, Add(b, BUCKET_KEY)).GetOr(0);
      if keyPtr == 0 { continue; }
      var k := ReadZendString(mem, decode, keyPtr);
      if k.Err? { continue; }
      if k.value != "_SERVER" { continue; }
      var typeInfo := ReadU32(mem, Add(b, BUCKET_VAL + ZVAL_TYPE_INFO));
      if typeInfo.Err? { return None; }
      var arrayPtr := Ok(0);
      if Tag(typeInfo.value) == IS_REFERENCE {
        var ref := ReadU64(mem, Add(b, BUCKET_VAL + ZVAL_VALUE));
        if ref.Err? { return None; }
        arrayPtr := ReadU64(mem, Add(ref.value, REF_VAL + ZVAL_VALUE));
      } else if Tag(typeInfo.value) == IS_ARRAY {
        arrayPtr := ReadU64(mem, Add(b, BUCKET_VAL + ZVAL_VALUE));
      } else {
        return None;
      }
      if arrayPtr.Err? || arrayPtr.value == 0 { return None; }
      var v := HtGetString(mem, decode, arrayPtr.value, key);
      return v.GetOr(None);
    }
    return None;
  }

  /** The first bucket with this key, deleted or not. */
  function FirstKeyed(decode: Decoder, buckets: seq<Bucket>, key: string): Option<Bucket> {
    if buckets == [] then None
    else if Keyed(decode, buckets[0], key) then Some(buckets[0])
    else FirstKeyed(decode, buckets[1..], key)
  }

  /** The array a value is or refers to. */
  function ArrayOf(v: Value): Option<u64> {
    match v
    case ArrayV(ptr) => Some(ptr)
    case RefV(_, inner) => if inner.ArrayV? then Some(inner.ptr) else None
    case _ => None
  }

  /** A reference to something else than an array, whose payload the code takes for an array's address. */
  predicate Misread(v: Value) {
    v.RefV? && !v.inner.ArrayV?
  }

  ghost predicate ArraysHeld(mem: Mem, arrays: map<u64, seq<Bucket>>) {
    forall ptr :: ptr in arrays ==> ptr != 0 && exists arData: u64 :: TableHeld(mem, ptr, arData, arrays[ptr])
  }

  /**
   * Unlike those of other tables, deleted buckets of the symbol table have their keys read. One without a key has
   * a null or dangling key pointer, or none that can be read.
   */
  ghost predicate KeyKnown(mem: Mem, b: nat, bucket: Bucket) {
    if bucket.live || bucket.key.Some? then KeyHeld(mem, b, bucket)
    else
      var ptr := Peek(mem, Add(b, 24));
      ptr == 0 || !StringReadable(mem, ptr)
  }

  ghost predicate KeysHeld(mem: Mem, arData: u64, buckets: seq<Bucket>) {
    forall i :: 0 <= i < |buckets| && i < 4096 ==> KeyKnown(mem, Slot(arData, i), buckets[i])
  }

  /** The arrays that live `_SERVER` variables are or refer to are among those laid out. */
  ghost predicate ServersOk(decode: Decoder, buckets: seq<Bucket>, arrays: map<u64, seq<Bucket>>) {
    forall i :: 0 <= i < |buckets| && buckets[i].live && Keyed(decode, buckets[i], "_SERVER") ==>
      ServerOk(buckets[i].value, arrays)
  }

  predicate ServerOk(v: Value, arrays: map<u64, seq<Bucket>>) {
    ArrayOf(v).Some? ==> ArrayOf(v).value in arrays
  }

  function ServerString(decode: Decoder, v: Value, arrays: map<u64, seq<Bucket>>, key: string): Option<string>
    requires ServerOk(v, arrays)
  {
    var ptr :- ArrayOf(v);
    FindString(decode, Examined(arrays[ptr]), key)
  }

  /** What the code makes of a payload that is no array's address. */
  function MisreadAnswer(mem: Mem, decode: Decoder, payload: u64, key: string): Result<Option<string>> {
    if payload == 0 then Ok(None) else HtGetStringOf(mem, decode, payload, key)
  }

  /** What the code answers once it has settled on a `_SERVER` bucket. */
  function BucketAnswer(mem: Mem, decode: Decoder, bucket: Bucket, arrays: map<u64, seq<Bucket>>, key: string)
    : Result<Option<string>>
    requires bucket.live ==> ServerOk(bucket.value, arrays)
  {
    if !bucket.live then Ok(None)
    else if Misread(bucket.value) then MisreadAnswer(mem, decode, PayloadOf(bucket.value.inner), key)
    else Ok(ServerString(decode, bucket.value, arrays, key))
  }

  lemma ServerInReads(mem: Mem, decode: Decoder, b: nat, bucket: Bucket, arrays: map<u64, seq<Bucket>>, key: string)
    requires BucketHeld(mem, b, bucket) && ArraysHeld(mem, arrays)
    requires bucket.live ==> ServerOk(bucket.value, arrays)
    ensures ServerIn(mem, decode, b, key) == BucketAnswer(mem, decode, bucket, arrays, key)
  {
    hide ReadU32, ReadU64, KeyHeld, TagHeld, ValueHeld, Add, Tag, HtGetStringOf, FindString, TableHeld;
    if !bucket.live {
      TagRead(mem, b, IS_UNDEF);
      return;
    }
    var v := bucket.value;
    ValueParts(mem, b, v);
    ZvalRead(mem, b, v);
    if v.RefV? {
      AddAdd(v.ptr, REF_VAL, ZVAL_VALUE);
      ValueParts(mem, Add(v.ptr, REF_VAL), v.inner);
      ZvalRead(mem, Add(v.ptr, REF_VAL), v.inner);
    }
    if ArrayOf(v).Some? {
      var ptr := ArrayOf(v).value;
      var arData: u64 :| TableHeld(mem, ptr, arData, arrays[ptr]);
      HtGetStringFinds(mem, decode, ptr, arData, arrays[ptr], key);
    }
  }

  lemma ServerExamined(mem: Mem, decode: Decoder, b: nat, bucket: Bucket, arrays: map<u64, seq<Bucket>>, key: string)
    requires BucketHeld(mem, b, bucket) && KeyKnown(mem, b, bucket) && ArraysHeld(mem, arrays)
    requires bucket.live && Keyed(decode, bucket, "_SERVER") ==> ServerOk(bucket.value, arrays)
    ensures ExamineServer(mem, decode, b, key) ==
            if Keyed(decode, bucket, "_SERVER") then Answer(BucketAnswer(mem, decode, bucket, arrays, key)) else Skip
  {
    hide ReadU64, ReadZendString, KeyHeld, BucketHeld, ArraysHeld, Text, Add, ServerIn, BucketAnswer, ServerOk;
    hide StringReadable, TextAt, Peek;
    if bucket.live || bucket.key.Some? {
      KeyRead(mem, decode, b, bucket);
    } else {
      PeekReads(mem, Add(b, 24));
      StringIsReadable(mem, decode, Peek(mem, Add(b, 24)));
    }
    if Keyed(decode, bucket, "_SERVER") { ServerInReads(mem, decode, b, bucket, arrays, key); }
  }

  lemma {:induction false} FirstKeyedOk(decode: Decoder, buckets: seq<Bucket>, arrays: map<u64, seq<Bucket>>)
    requires ServersOk(decode, buckets, arrays)
    ensures var f := FirstKeyed(decode, buckets, "_SERVER");
            f.Some? && f.value.live ==> ServerOk(f.value.value, arrays)
    ensures var v := Find(decode, buckets, "_SERVER");
            v.Some? ==> ServerOk(v.value, arrays)
  {
    hide Keyed, ServerOk;
    if buckets != [] { FirstKeyedOk(decode, buckets[1..], arrays); }
  }

  /** What the code finds: it trusts the first `_SERVER` bucket, deleted or not, whatever it refers to. */
  function CodeServer(mem: Mem, decode: Decoder, buckets: seq<Bucket>, arrays: map<u64, seq<Bucket>>, key: string)
    : Result<Option<string>>
    requires ServersOk(decode, buckets, arrays)
  {
    FirstKeyedOk(decode, buckets, arrays);
    match FirstKeyed(decode, buckets, "_SERVER")
    case None => Ok(None)
    case Some(bucket) => BucketAnswer(mem, decode, bucket, arrays, key)
  }

  /** `$_SERVER[key]`: the live `_SERVER` variable's string under `key`. */
  function Server(decode: Decoder, buckets: seq<Bucket>, arrays: map<u64, seq<Bucket>>, key: string): Option<string>
    requires ServersOk(decode, buckets, arrays)
  {
    FirstKeyedOk(decode, buckets, arrays);
    var v :- Find(decode, buckets, "_SERVER");
    ServerString(decode, v, arrays, key)
  }

  lemma {:induction false} SearchServerFinds(mem: Mem, decode: Decoder, arData: u64, buckets: seq<Bucket>, i: nat,
                                             n: nat, arrays: map<u64, seq<Bucket>>, key: string)
    requires i <= n <= |buckets| && ServersOk(decode, buckets[..n], arrays) && ArraysHeld(mem, arrays)
    requires forall j :: i <= j < n ==>
               BucketHeld(mem, Slot(arData, j), buckets[j]) && KeyKnown(mem, Slot(arData, j), buckets[j])
    ensures ServersOk(decode, buckets[i..n], arrays)
    ensures SearchServer(mem, decode, arData, i, n, key) == CodeServer(mem, decode, buckets[i..n], arrays, key)
    decreases n - i
  {
    hide ExamineServer, BucketHeld, KeyKnown, Keyed, BucketAt, Slot, ServerOk, BucketAnswer, ArraysHeld;
    assert forall j :: 0 <= j < n - i ==> buckets[i..n][j] == buckets[..n][i + j];
    if i < n {
      assert buckets[..n][i] == buckets[i];
      BucketIsSlot(arData, i);
      ServerExamined(mem, decode, Slot(arData, i), buckets[i], arrays, key);
      SearchServerFinds(mem, decode, arData, buckets, i + 1, n, arrays, key);
      assert buckets[i..n][1..] == buckets[i + 1..n];
    }
  }

  /** A deleted `_SERVER` bucket comes before any live one. */
  predicate Stale(decode: Decoder, buckets: seq<Bucket>) {
    var f := FirstKeyed(decode, buckets, "_SERVER");
    f.Some? && !f.value.live
  }

  /** The first `_SERVER` bucket is live and refers to something else than an array. */
  predicate Misled(decode: Decoder, buckets: seq<Bucket>) {
    var f := FirstKeyed(decode, buckets, "_SERVER");
    f.Some? && f.value.live && Misread(f.value.value)
  }

  /** What a misled search takes for the array's address. */
  function MisledTo(decode: Decoder, buckets: seq<Bucket>): u64
    requires Misled(decode, buckets)
  {
    PayloadOf(FirstKeyed(decode, buckets, "_SERVER").value.value.inner)
  }

  lemma {:induction false} FreshFirstIsFound(decode: Decoder, buckets: seq<Bucket>)
    requires !Stale(decode, buckets)
    ensures var f := FirstKeyed(decode, buckets, "_SERVER");
            Find(decode, buckets, "_SERVER") == if f.Some? then Some(f.value.value) else None
  {
    hide Keyed;
    if buckets != [] && !Keyed(decode, buckets[0], "_SERVER") { FreshFirstIsFound(decode, buckets[1..]); }
  }

  /**
   * On laid-out tables `request_var` gives the abstract `$_SERVER[key]` if and only if no deleted `_SERVER`
   * bucket comes first while there is a string to give, and a `_SERVER` that refers to something else than
   * an array does not happen to yield a string from the address its payload is taken for.
   */
  lemma RequestVarIsServerIff(mem: Mem, decode: Decoder, symbolTable: nat, arData: u64, buckets: seq<Bucket>,
                              arrays: map<u64, seq<Bucket>>, key: string)
    requires TableHeld(mem, symbolTable, arData, buckets) && KeysHeld(mem, arData, buckets) && ArraysHeld(mem, arrays)
    requires ServersOk(decode, Examined(buckets), arrays)
    ensures var (seen, r) := (Examined(buckets), RequestVarOf(mem, decode, symbolTable, key));
            var server := Server(decode, seen, arrays, key);
            && (!Stale(decode, seen) && !Misled(decode, seen) ==> r == Ok(server))
            && (Stale(decode, seen) ==> r == Ok(None))
            && (Misled(decode, seen) ==> server == None && r == MisreadAnswer(mem, decode, MisledTo(decode, seen), key))
            && (r.GetOr(None) == server <==>
                && (Stale(decode, seen) ==> server == None)
                && (Misled(decode, seen) ==>
                      MisreadAnswer(mem, decode, MisledTo(decode, seen), key).GetOr(None) == None))
  {
    hide ReadU32, ReadU64, Holds32, Holds64, BucketHeld, KeyKnown, SearchServer, Keyed, ServerString, ServerOk;
    hide ArraysHeld, MisreadAnswer;
    U32Held(mem, Add(symbolTable, HT_N_NUM_USED), |buckets|);
    U64Held(mem, Add(symbolTable, HT_AR_DATA), arData);
    var n := if |buckets| <= MAX_BUCKETS then |buckets| else MAX_BUCKETS;
    SearchServerFinds(mem, decode, arData, buckets, 0, n, arrays, key);
    assert buckets[0..n] == Examined(buckets);
    if !Stale(decode, Examined(buckets)) { FreshFirstIsFound(decode, Examined(buckets)); }
    if Misled(decode, Examined(buckets)) { MisreadHasNoString(decode, Examined(buckets), arrays, key); }
  }

  lemma MisreadHasNoString(decode: Decoder, buckets: seq<Bucket>, arrays: map<u64, seq<Bucket>>, key: string)
    requires ServersOk(decode, buckets, arrays) && Misled(decode, buckets)
    ensures Server(decode, buckets, arrays, key) == None
  {
    hide Keyed;
    FreshFirstIsFound(decode, buckets);
  }

  // ----- `$_SERVER` on arbitrary memory -----

  /** What the first bucket with the key answers: a lookup at its payload, or at the payload of what it refers to. */
  function ServerAnswerIn(mem: Mem, decode: Decoder, b: u64, key: string): Result<Option<string>> {
    if !Readable(mem, Add(b, 8), 4) then Err
    else if TagByte(mem, b) == 7 then
      if Readable(mem, b, 8) then MisreadAnswer(mem, decode, Peek(mem, b), key) else Err
    else if TagByte(mem, b) == 10 then
      if Readable(mem, b, 8) && Readable(mem, Add(Peek(mem, b), 16), 8)
      then MisreadAnswer(mem, decode, Peek(mem, Add(Peek(mem, b), 16)), key) else Err
    else Ok(None)
  }

  lemma ServerInAnswers(mem: Mem, decode: Decoder, b: u64, key: string)
    ensures ServerIn(mem, decode, b, key) == ServerAnswerIn(mem, decode, b, key)
  {
    hide HtGetStringOf, ReadU64, ReadU32, Peek, Tag, Add;
    AddZero(b);
    TagIsLowByte(mem, Add(b, 8));
    PeekReads(mem, b);
    PeekReads(mem, Add(Peek(mem, b), 16));
  }

  predicate ServerAt(mem: Mem, decode: Decoder, arData: u64, j: nat) {
    KeyIs(mem, decode, Slot(arData, j), "_SERVER")
  }

  /** Bucket k is the first of n with the key `_SERVER`. */
  ghost predicate FirstServer(mem: Mem, decode: Decoder, arData: u64, k: nat, n: nat) {
    k < n && ServerAt(mem, decode, arData, k) && forall j :: 0 <= j < k ==> !ServerAt(mem, decode, arData, j)
  }

  lemma SearchServerStep(mem: Mem, decode: Decoder, arData: u64, i: nat, n: nat, key: string)
    requires i < n
    ensures SearchServer(mem, decode, arData, i, n, key) ==
            if ServerAt(mem, decode, arData, i) then ServerAnswerIn(mem, decode, Slot(arData, i), key)
            else SearchServer(mem, decode, arData, i + 1, n, key)
  {
    hide KeyIs, ServerAnswerIn, ServerIn, BucketAt, Slot, ReadZendString, ReadU64, Add;
    BucketIsSlot(arData, i);
    KeyIsRead(mem, decode, Slot(arData, i), "_SERVER");
    ServerInAnswers(mem, decode, Slot(arData, i), key);
  }

  lemma {:induction false} SearchServerMisses(mem: Mem, decode: Decoder, arData: u64, i: nat, n: nat, key: string)
    requires forall j :: i <= j < n ==> !ServerAt(mem, decode, arData, j)
    ensures SearchServer(mem, decode, arData, i, n, key) == Ok(None)
    decreases n - i
  {
    hide ServerAt, ExamineServer;
    if i < n {
      SearchServerStep(mem, decode, arData, i, n, key);
      SearchServerMisses(mem, decode, arData, i + 1, n, key);
    }
  }

  lemma {:induction false} SearchServerHits(mem: Mem, decode: Decoder, arData: u64, i: nat, k: nat, n: nat, key: string)
    requires i <= k && FirstServer(mem, decode, arData, k, n)
    ensures SearchServer(mem, decode, arData, i, n, key) == ServerAnswerIn(mem, decode, Slot(arData, k), key)
    decreases k - i
  {
    hide ServerAt, ServerAnswerIn, SearchServer;
    SearchServerStep(mem, decode, arData, i, n, key);
    if i < k { SearchServerHits(mem, decode, arData, i + 1, k, n, key); }
  }

  /** On any memory, of the symbol table: as for a table, but with the first bucket keyed `_SERVER` whatever its tag. */
  lemma RequestVarAnywhere(mem: Mem, decode: Decoder, symbolTable: nat, key: string)
    ensures !HeaderReadable(mem, symbolTable) ==> RequestVarOf(mem, decode, symbolTable, key) == Err
    ensures HeaderReadable(mem, symbolTable) ==>
              var arData, n := Peek(mem, Add(symbolTable, 16)), BucketsUsed(mem, symbolTable);
              && (arData == 0 || (forall j :: 0 <= j < n ==> !ServerAt(mem, decode, arData, j)) ==>
                    RequestVarOf(mem, decode, symbolTable, key) == Ok(None))
              && forall k: nat :: arData != 0 && FirstServer(mem, decode, arData, k, n) ==>
                   RequestVarOf(mem, decode, symbolTable, key) == ServerAnswerIn(mem, decode, Slot(arData, k), key)
  {
    hide SearchServer, ServerAt, ServerAnswerIn, Slot, Add, U64At, U32At;
    PeekReads(mem, Add(symbolTable, 16));
    var arData, n := Peek(mem, Add(symbolTable, 16)), BucketsUsed(mem, symbolTable);
    if forall j :: 0 <= j < n ==> !ServerAt(mem, decode, arData, j) {
      SearchServerMisses(mem, decode, arData, 0, n, key);
    }
    forall k: nat | FirstServer(mem, decode, arData, k, n)
      ensures SearchServer(mem, decode, arData, 0, n, key) == ServerAnswerIn(mem, decode, Slot(arData, k), key)
    {
      SearchServerHits(mem, decode, arData, 0, k, n, key);
    }
  }
}
