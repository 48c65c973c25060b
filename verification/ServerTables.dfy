/** Two symbol tables, word by word in memory, on which the `$_SERVER` lookup is wrong. */
module ServerTables {
  import opened Wrappers
  import opened Memory
  import opened MemoryImage
  import opened StackWalker
  import opened CallStackLayout
  import H = HashLookup

  // ----- Strings, values, keys and tables in an image -----

  lemma StringIn(words: seq<u64>, i: nat, s: Str)
    requires i + 3 < |words| && 8 * |words| < U64 && i > 0
    requires s.ptr == 8 * i && |s.bytes| <= 8
    requires words[i + 2] == |s.bytes| && s.bytes == LeBytes(words[i + 3], |s.bytes|)
    ensures StrHeld(Image(words), Some(s))
  {
    hide Holds, Image, LeBytes, Add;
    AddInside(words, i, 2);
    AddInside(words, i, 3);
    WordHeld(words, i + 2);
    BytesHeld(words, i + 3, |s.bytes|);
  }

  lemma ZvalIn(words: seq<u64>, i: nat, v: H.Value)
    requires i + 1 < |words| && 8 * |words| < U64
    requires words[i] == H.PayloadOf(v) && words[i + 1] % 256 == H.TagOf(v)
    ensures H.TagHeld(Image(words), 8 * i, H.TagOf(v))
    ensures Holds64(Image(words), Add(8 * i, 0), H.PayloadOf(v))
  {
    AddInside(words, i, 0);
    AddInside(words, i, 1);
    BytesHeld(words, i + 1, 1);
    AllReadable(words, 8 * (i + 1), 4);
    WordHeld(words, i);
    assert LeBytes(words[i + 1], 1)[0] == H.TagOf(v);
    hide Holds64, Image, Add, LeBytes;
  }

  lemma KeyIn(words: seq<u64>, i: nat, bucket: H.Bucket)
    requires i + 3 < |words| && 8 * |words| < U64
    requires words[i + 3] == StrPtr(bucket.key) && StrHeld(Image(words), bucket.key)
    ensures H.KeyHeld(Image(words), 8 * i, bucket)
  {
    hide Holds64, Holds32, Image, Add, StrHeld;
    AddInside(words, i, 3);
    WordHeld(words, i + 3);
  }

  lemma TableIn(words: seq<u64>, i: nat, buckets: seq<H.Bucket>)
    requires i + 3 < |words| && 8 * |words| < U64
    requires words[i + 2] != 0 && words[i + 3] == |buckets| < 0x1_0000_0000
    requires forall k :: 0 <= k < |buckets| ==> H.BucketHeld(Image(words), H.Slot(words[i + 2], k), buckets[k])
    ensures H.TableHeld(Image(words), 8 * i, words[i + 2], buckets)
  {
    hide Holds64, Holds32, Image, Add, H.BucketHeld, H.Slot;
    AddInside(words, i, 2);
    AddInside(words, i, 3);
    WordHeld(words, i + 2);
    WordHeld(words, i + 3);
  }

  // ----- The image -----

  /**
   * At 0 a symbol table holding a deleted and then a live `_SERVER`; at 64 one whose `_SERVER` refers to the
   * integer 32; at 32 an array mapping "k" to "v". Refcounted values carry flags above their tags.
   */
  function Tables(): (words: seq<u64>)
    ensures |words| == 44
  {
    [0, 0, 128, 2,
     0, 0, 192, 1,
     0, 0, 224, 1,
     0, 0, 32, 4,
     0, 0, 0, 256,
     32, 0x307, 0, 256,
     320, 0x106, 0, 288,
     96, 0x10a, 0, 256,
     0, 0, 7, 0x52_4556_5245_535f,
     0, 0, 1, 0x6b,
     0, 0, 1, 0x76]
  }

  function TablesMem(): Mem {
    Image(Tables())
  }

  function Name(): Str { Str(256, [0x5f, 0x53, 0x45, 0x52, 0x56, 0x45, 0x52]) }

  function Entry(): H.Bucket { H.Bucket(true, Some(Str(288, [0x6b])), H.StrV(Str(320, [0x76]))) }

  function Dead(): H.Bucket { H.Bucket(false, Some(Name()), H.OtherV(0, 0)) }

  function Live(): H.Bucket { H.Bucket(true, Some(Name()), H.ArrayV(32)) }

  function ToInteger(): H.Bucket { H.Bucket(true, Some(Name()), H.RefV(96, H.OtherV(4, 32))) }

  function Arrays(): map<u64, seq<H.Bucket>> {
    map[32 := [Entry()]]
  }

  /** Decoding that is right on ASCII. */
  function Ascii(): Decoder {
    (bytes: seq<byte>) => seq(|bytes|, i requires 0 <= i < |bytes| => bytes[i] as char)
  }

  lemma StringsHeld()
    ensures StrHeld(TablesMem(), Some(Name())) && StrHeld(TablesMem(), Entry().key)
    ensures StrHeld(TablesMem(), Some(Entry().value.s))
  {
    hide StrHeld;
    var words := Tables();
    assert words[34] == 7 && words[35] == 0x52_4556_5245_535f && words[38] == 1 && words[39] == 0x6b;
    assert words[42] == 1 && words[43] == 0x76;
    assert LeBytes(0x52_4556_5245_535f, 7) == Name().bytes;
    assert LeBytes(0x6b, 1) == [0x6b] && LeBytes(0x76, 1) == [0x76];
    hide Tables, Image, LeBytes;
    StringIn(words, 32, Name());
    StringIn(words, 36, Entry().key.value);
    StringIn(words, 40, Entry().value.s);
  }

  lemma DeadHeld()
    ensures H.BucketHeld(TablesMem(), 128, Dead()) && H.KeyHeld(TablesMem(), 128, Dead())
  {
    hide StrHeld, H.TagHeld, H.KeyHeld, Holds64, LeBytes;
    StringsHeld();
    var words := Tables();
    assert words[16] == 0 && words[17] == 0 && words[19] == 256;
    hide Tables, Image;
    KeyIn(words, 16, Dead());
    ZvalIn(words, 16, Dead().value);
  }

  lemma LiveHeld()
    ensures H.BucketHeld(TablesMem(), 160, Live()) && H.KeyHeld(TablesMem(), 160, Live())
  {
    hide StrHeld, H.TagHeld, H.KeyHeld, Holds64, LeBytes;
    StringsHeld();
    var words := Tables();
    assert words[20] == 32 && words[21] == 0x307 && words[23] == 256;
    hide Tables, Image;
    KeyIn(words, 20, Live());
    ZvalIn(words, 20, Live().value);
  }

  lemma EntryHeld()
    ensures H.BucketHeld(TablesMem(), 192, Entry())
  {
    hide StrHeld, H.TagHeld, H.KeyHeld, Holds64, LeBytes;
    StringsHeld();
    var words := Tables();
    assert words[24] == 320 && words[25] == 0x106 && words[27] == 288;
    hide Tables, Image;
    KeyIn(words, 24, Entry());
    ZvalIn(words, 24, Entry().value);
  }

  lemma ToIntegerHeld()
    ensures H.BucketHeld(TablesMem(), 224, ToInteger()) && H.KeyHeld(TablesMem(), 224, ToInteger())
  {
    hide StrHeld, H.TagHeld, H.KeyHeld, Holds64, LeBytes;
    StringsHeld();
    var words := Tables();
    assert words[28] == 96 && words[29] == 0x10a && words[31] == 256 && words[14] == 32 && words[15] == 4;
    hide Tables, Image, Add;
    KeyIn(words, 28, ToInteger());
    ZvalIn(words, 28, ToInteger().value);
    ZvalIn(words, 14, ToInteger().value.inner);
    AddInside(words, 12, 2);
    assert H.ValueHeld(TablesMem(), Add(96, 16), ToInteger().value.inner);
  }

  lemma TablesHeld()
    ensures H.TableHeld(TablesMem(), 0, 128, [Dead(), Live()]) && H.KeysHeld(TablesMem(), 128, [Dead(), Live()])
    ensures H.TableHeld(TablesMem(), 64, 224, [ToInteger()]) && H.KeysHeld(TablesMem(), 224, [ToInteger()])
    ensures H.TableHeld(TablesMem(), 32, 192, [Entry()]) && H.ArraysHeld(TablesMem(), Arrays())
  {
    hide H.BucketHeld, H.KeyHeld, H.TableHeld;
    DeadHeld();
    LiveHeld();
    EntryHeld();
    ToIntegerHeld();
    var words := Tables();
    assert words[2] == 128 && words[3] == 2 && words[10] == 224 && words[11] == 1 && words[6] == 192 && words[7] == 1;
    hide Tables, Image, Dead, Live, Entry, ToInteger;
    TableIn(words, 0, [Dead(), Live()]);
    TableIn(words, 8, [ToInteger()]);
    TableIn(words, 4, [Entry()]);
  }

  lemma NamesDecode()
    ensures H.Keyed(Ascii(), Dead(), "_SERVER") && H.Keyed(Ascii(), Live(), "_SERVER")
    ensures H.Keyed(Ascii(), ToInteger(), "_SERVER")
    ensures H.FindString(Ascii(), [Entry()], "k") == Some("v")
  {
    assert Ascii()(Name().bytes) == "_SERVER";
    assert Ascii()([0x6b]) == "k" && Ascii()([0x76]) == "v";
  }

  /** The promise fails on a symbol table laid out in memory: a stale bucket hides the live `$_SERVER["k"]`. */
  lemma StaleServerHidesLive()
    ensures var buckets := [Dead(), Live()];
            && H.TableHeld(TablesMem(), 0, 128, buckets) && H.KeysHeld(TablesMem(), 128, buckets)
            && H.ArraysHeld(TablesMem(), Arrays()) && H.ServersOk(Ascii(), H.Examined(buckets), Arrays())
            && H.Server(Ascii(), H.Examined(buckets), Arrays(), "k") == Some("v")
            && H.RequestVarOf(TablesMem(), Ascii(), 0, "k") == Ok(None)
  {
    hide H.TableHeld, H.KeysHeld, H.ArraysHeld, H.Keyed, H.RequestVarOf, H.FindString, TablesMem, Ascii, Name;
    NamesDecode();
    TablesHeld();
    var buckets := [Dead(), Live()];
    assert H.Examined(buckets) == buckets && buckets[1..] == [Live()] && H.Examined([Entry()]) == [Entry()];
    H.RequestVarIsServerIff(TablesMem(), Ascii(), 0, 128, buckets, Arrays(), "k");
  }

  /** It fails the other way too: a `$_SERVER` that refers to an integer has no "k", yet "v" is answered. */
  lemma IntegerServerIsMisread()
    ensures var buckets := [ToInteger()];
            && H.TableHeld(TablesMem(), 64, 224, buckets) && H.KeysHeld(TablesMem(), 224, buckets)
            && H.ArraysHeld(TablesMem(), Arrays()) && H.ServersOk(Ascii(), H.Examined(buckets), Arrays())
            && H.Server(Ascii(), H.Examined(buckets), Arrays(), "k") == None
            && H.RequestVarOf(TablesMem(), Ascii(), 64, "k") == Ok(Some("v"))
  {
    hide H.TableHeld, H.KeysHeld, H.ArraysHeld, H.Keyed, H.RequestVarOf, H.HtGetStringOf, H.FindString;
    hide TablesMem, Ascii, Name;
    NamesDecode();
    TablesHeld();
    var buckets := [ToInteger()];
    assert H.Examined(buckets) == buckets && H.Examined([Entry()]) == [Entry()];
    H.RequestVarIsServerIff(TablesMem(), Ascii(), 64, 224, buckets, Arrays(), "k");
    H.HtGetStringFinds(TablesMem(), Ascii(), 32, 192, [Entry()], "k");
  }
}
