/**
 The two known answers that the repository's tests fix: the digests of the empty message and
 of "test", derived from the definitions. Each message is a single block whose only word that
 can differ from zero is its first one.
 */
module KnownAnswers {
  import opened Compression
  import opened Digits
  import opened Tree

  /** All words are zero but word at, which is x. */
  ghost predicate Lone(v: Words16, at: nat, x: Word) {
    forall i :: 0 <= i < 16 ==> v[i] == if i == at then x else 0
  }

  /** Where the schedule puts the first message word. */
  const PLACES: seq<nat> := [0, 5, 11, 9, 12, 10, 3]

  lemma PlaceOfFirst(r: nat, i: nat)
    requires r < |MSG_SCHEDULE| && i < 16
    ensures |MSG_SCHEDULE[r]| == 16 && (MSG_SCHEDULE[r][i] == 0 <==> i == PLACES[r])
  {
    if r == 0 {
    } else if r == 1 {
    } else if r == 2 {
    } else if r == 3 {
    } else if r == 4 {
    } else if r == 5 {
    } else {
    }
  }

  lemma ScheduledLone(m: Words16, x: Word, r: nat)
    requires Lone(m, 0, x) && r < |MSG_SCHEDULE|
    ensures Lone(Scheduled(m, r), PLACES[r], x)
  {
    forall i | 0 <= i < 16
      ensures Scheduled(m, r)[i] == if i == PLACES[r] then x else 0
    {
      ScheduleInRange(r);
      PlaceOfFirst(r, i);
    }
  }

  const PLAIN: Mode := Mode(Blake3Compress, IV, 0)

  /** The last state of a message of one block, which is both the first and the last of the root chunk. */
  function LastState(msg: seq<Byte>): State
    requires |msg| <= BLOCK_LEN
  {
    Rounds(StartState(IV, BlockInfo(|msg|, 0, CHUNK_START | CHUNK_END | ROOT)), BlockWords(Pad(msg)), |MSG_SCHEDULE|)
  }

  /** Word i of a printed digest, eight hexadecimal digits. */
  function Printed(digest: seq<Byte>, i: nat): Word
    requires 4 * i + 4 <= |digest|
  {
    Load32(digest[4 * i + 3], digest[4 * i + 2], digest[4 * i + 1], digest[4 * i])
  }

  /** The bytes of a word, turned around. */
  function Turned(w: Word): Word {
    (w >> 24) | ((w >> 8) & 0xff00) | ((w << 8) & 0xff_0000) | (w << 24)
  }

  lemma LoadTurned(b0: Byte, b1: Byte, b2: Byte, b3: Byte)
    ensures Load32(b3, b2, b1, b0) == Turned(Load32(b0, b1, b2, b3))
  {}

  lemma OneBlockOutput(msg: seq<Byte>)
    requires |msg| <= BLOCK_LEN
    ensures TreeOutput(PLAIN, msg, 0) == Output(IV, Pad(msg), |msg|, 0, 0 | CHUNK_START | CHUNK_END)
  {
    assert msg[0..] == msg;
    assert InnerBlocks(|msg|) == 0;
  }

  /** The digest of a message of one block is made of the upper and the lower half of its last state. */
  lemma OneBlockDigest(msg: seq<Byte>, i: nat)
    requires |msg| <= BLOCK_LEN && i < 8
    ensures Printed(Hash(PLAIN, msg, 0, OUT_LEN), i)
         == Turned(Xor32(WordAt(LastState(msg), i), WordAt(LastState(msg), i + 8)))
  {
    hide Rounds, StartState, BlockWords, BlockInfo, WordAt, Xor32, StoreWords, Load32, Turned, TreeOutput, LoadWords;
    var o := TreeOutput(PLAIN, msg, 0);
    OneBlockOutput(msg);
    var ws := Blake3Compress(o.inputCv, o.block, o.blockLen, 0, o.flags | ROOT);
    var bs, digest := StoreWords(ws), Hash(PLAIN, msg, 0, OUT_LEN);
    assert forall k :: 0 <= k < OUT_LEN ==> digest[k] == bs[k];
    LoadStoreWords(ws);
    LoadAt(bs, i);
    LoadTurned(bs[4 * i], bs[4 * i + 1], bs[4 * i + 2], bs[4 * i + 3]);
    assert o.flags | ROOT == CHUNK_START | CHUNK_END | ROOT;
  }

  lemma OneWordBlock(msg: seq<Byte>, b0: Byte, b1: Byte, b2: Byte, b3: Byte)
    requires |msg| <= 4 && Pad(msg)[..4] == [b0, b1, b2, b3]
    ensures Lone(BlockWords(Pad(msg)), 0, Load32(b0, b1, b2, b3))
  {
    hide Load32, LoadWords;
    var block := Pad(msg);
    forall i | 0 <= i < 16
      ensures BlockWords(block)[i] == if i == 0 then Load32(b0, b1, b2, b3) else 0
    {
      LoadAt(block, i);
      if i > 0 {
        ZeroWord();
      }
    }
  }

  lemma ZeroWord()
    ensures Load32(0, 0, 0, 0) == 0
  {}

  // ---------- The empty message ----------

  const EMPTY_0: State := Matrix(
    Vec4(0x6A09E667, 0xBB67AE85, 0x3C6EF372, 0xA54FF53A), Vec4(0x510E527F, 0x9B05688C, 0x1F83D9AB, 0x5BE0CD19),
    Vec4(0x6A09E667, 0xBB67AE85, 0x3C6EF372, 0xA54FF53A), Vec4(0x00000000, 0x00000000, 0x00000000, 0x0000000B))
  const EMPTY_0_MID: State := Matrix(
    Vec4(0xEB2778D5, 0x1E51AED7, 0xC8E42E16, 0xB86486C6), Vec4(0x5A8196B9, 0x5896CDA4, 0x4102C650, 0x05D223ED),
    Vec4(0x70C46342, 0x8C8245EA, 0xED9248D9, 0x5E2232F1), Vec4(0xCDD3C1C3, 0xBA0940F8, 0xE405F975, 0xF67A3C87))
  const EMPTY_1: State := Matrix(
    Vec4(0x775146DC, 0x91D99567, 0x8D7EB8E2, 0xBA28BE49), Vec4(0xBF7B53FF, 0xE7661B5D, 0x7F835244, 0x24BF2E76),
    Vec4(0xE15F5DCD, 0x1AEB5F15, 0x809EAE90, 0xF32C027F), Vec4(0xE0253D07, 0x5D9F85CC, 0xAA5E2248, 0x180DAFF3))
  const EMPTY_1_MID: State := Matrix(
    Vec4(0xAB5FFF51, 0x07CA3A1D, 0x878F6406, 0x50D9193D), Vec4(0x526BB7A7, 0x15075999, 0x9EFC62DE, 0x6CF8FAE6),
    Vec4(0x4148B7DF, 0x0D2645D3, 0x04BC37AF, 0x0D8C5F48), Vec4(0xB80C8329, 0xBD32C21E, 0x5AAEE1C3, 0xD71395DF))
  const EMPTY_2: State := Matrix(
    Vec4(0x2C13A84B, 0x7391D71C, 0xAC838B2B, 0x24EB933C), Vec4(0xFF2B859C, 0x06F4FC75, 0xF59E03F7, 0xC9B120BE),
    Vec4(0x6F6B735B, 0x14640C27, 0x11D275E2, 0x03CAC1DB), Vec4(0xD66C43C9, 0x913071C2, 0xD615CC6A, 0x3FE126BF))
  const EMPTY_2_MID: State := Matrix(
    Vec4(0x7E615906, 0x3511D7C1, 0x403B9770, 0x2D01BE15), Vec4(0x9AC311D6, 0x5329887C, 0x6E0E08AB, 0xB87F5BBB),
    Vec4(0x32AAC052, 0x2E4F3A19, 0x991E5DF9, 0x01C8D7C7), Vec4(0x55104FA4, 0x7797423C, 0x440373E3, 0x68B8446F))
  const EMPTY_3: State := Matrix(
    Vec4(0xC701A3DB, 0xFAFDDA68, 0x4500AEFC, 0x8B2BD935), Vec4(0xE03FD3D0, 0x39BA3382, 0xFC9E75F5, 0xE3F3E7BA),
    Vec4(0xB5B666A0, 0xDC8EE13A, 0x286F0345, 0x18E70302), Vec4(0x6755352C, 0xD1F41721, 0xF237235A, 0xE962EC1A))
  const EMPTY_3_MID: State := Matrix(
    Vec4(0xFD82F7CA, 0x8504FBF9, 0x732BED3D, 0x5B7A23E5), Vec4(0xE9017957, 0x57F96CF7, 0x0FE807FE, 0xA4641CF7),
    Vec4(0xD6FD2BEB, 0xACFA95A4, 0xC58F374B, 0xDE541924), Vec4(0xDEBF0537, 0xB59FCF1E, 0x9574805E, 0x98778FA5))
  const EMPTY_4: State := Matrix(
    Vec4(0xDF9AD597, 0xDD7BB3BD, 0x28638E71, 0x42BDD2FD), Vec4(0xEE85FEE0, 0x718E6EE5, 0x5338FD61, 0x36178D26),
    Vec4(0x1B151726, 0xBCBD45B6, 0x4D29026E, 0xD4F01F6F), Vec4(0xEFDBBBF9, 0x7EED492C, 0xF25FDF03, 0x9C34FE18))
  const EMPTY_4_MID: State := Matrix(
    Vec4(0x4A3716E3, 0xE68FBEF3, 0x90ABB7F9, 0x1039B3DB), Vec4(0x69BDBD60, 0xFB56BBCA, 0x91936054, 0x3E75BCAA),
    Vec4(0xA2C8F258, 0x3CD8792C, 0xDCBF066F, 0xADBA06A7), Vec4(0x1825B937, 0x148D018F, 0x3AC47A3E, 0x3A8E0257))
  const EMPTY_5: State := Matrix(
    Vec4(0x311341A0, 0xE7BF7AD7, 0xFA040CAA, 0x8DEA573B), Vec4(0xE6872C9A, 0x87743C00, 0xAE95E0DC, 0xB868CCDD),
    Vec4(0x1E84F6DB, 0x5064AB73, 0x519B6EB0, 0x256C35C7), Vec4(0xD141CF1A, 0x068F28D7, 0x0886EF14, 0xA3E1E93E))
  const EMPTY_5_MID: State := Matrix(
    Vec4(0x2A600063, 0x022A47E9, 0x89D99944, 0xC097D3D5), Vec4(0xAAD5EAD8, 0x9FADEF5C, 0x6C9D0DE3, 0x2447C8C6),
    Vec4(0x7830FE7C, 0x44013F5D, 0xAFB95A08, 0x59A0CCAF), Vec4(0xB88B40C6, 0x559C2A2E, 0x5B8B4B39, 0x670DB136))
  const EMPTY_6: State := Matrix(
    Vec4(0x4F570EAD, 0x60477936, 0xDE1FA32D, 0x1526F2B6), Vec4(0x18479E2E, 0x8A7C3BF6, 0x803141A7, 0x64FE24E9),
    Vec4(0x50EC3591, 0x8A762305, 0xBB54E5AB, 0xE920F0AA), Vec4(0x7A754DAF, 0x90963B58, 0x50E0B2C2, 0xAD11DEA3))
  const EMPTY_6_MID: State := Matrix(
    Vec4(0x3CC14F57, 0x558CDE96, 0xBE19FA8F, 0xADA281DD), Vec4(0x64743955, 0x296C1F79, 0xE81D3423, 0x15517E18),
    Vec4(0xEF3E08CE, 0xDCC695FE, 0x5153044F, 0x9BC26634), Vec4(0xBCDDB552, 0xC3DBF8A4, 0x3FE80FF4, 0xE9649E56))
  const EMPTY_7: State := Matrix(
    Vec4(0x3443FA28, 0x7634CDC6, 0x49D319AD, 0xBCB61AC1), Vec4(0x78F414D7, 0xAADB11A4, 0xF59BEAFB, 0x03F6DA91),
    Vec4(0x8D0AE987, 0xD0953433, 0xA39E590D, 0xF57FC6F7), Vec4(0xB1D1DF4C, 0x1DC9D009, 0x3F087037, 0x61C4C575))

  lemma EmptyRound0(v: Words16)
    requires Lone(v, 0, 0x00000000)
    ensures Round(EMPTY_0, v) == EMPTY_1
  {
    assert Columns(EMPTY_0, v) == EMPTY_0_MID;
  }

  lemma EmptyRound1(v: Words16)
    requires Lone(v, 5, 0x00000000)
    ensures Round(EMPTY_1, v) == EMPTY_2
  {
    assert Columns(EMPTY_1, v) == EMPTY_1_MID;
  }

  lemma EmptyRound2(v: Words16)
    requires Lone(v, 11, 0x00000000)
    ensures Round(EMPTY_2, v) == EMPTY_3
  {
    assert Columns(EMPTY_2, v) == EMPTY_2_MID;
  }

  lemma EmptyRound3(v: Words16)
    requires Lone(v, 9, 0x00000000)
    ensures Round(EMPTY_3, v) == EMPTY_4
  {
    assert Columns(EMPTY_3, v) == EMPTY_3_MID;
  }

  lemma EmptyRound4(v: Words16)
    requires Lone(v, 12, 0x00000000)
    ensures Round(EMPTY_4, v) == EMPTY_5
  {
    assert Columns(EMPTY_4, v) == EMPTY_4_MID;
  }

  lemma EmptyRound5(v: Words16)
    requires Lone(v, 10, 0x00000000)
    ensures Round(EMPTY_5, v) == EMPTY_6
  {
    assert Columns(EMPTY_5, v) == EMPTY_5_MID;
  }

  lemma EmptyRound6(v: Words16)
    requires Lone(v, 3, 0x00000000)
    ensures Round(EMPTY_6, v) == EMPTY_7
  {
    assert Columns(EMPTY_6, v) == EMPTY_6_MID;
  }

  lemma EmptyRounds(m: Words16)
    requires Lone(m, 0, 0x00000000)
    ensures Rounds(EMPTY_0, m, |MSG_SCHEDULE|) == EMPTY_7
  {
    hide Round, Scheduled, Lone;
    forall r | 0 <= r < |MSG_SCHEDULE|
      ensures Lone(Scheduled(m, r), PLACES[r], 0x00000000)
    {
      ScheduledLone(m, 0x00000000, r);
    }
    EmptyRound0(Scheduled(m, 0));
    assert Rounds(EMPTY_0, m, 1) == EMPTY_1;
    EmptyRound1(Scheduled(m, 1));
    assert Rounds(EMPTY_0, m, 2) == EMPTY_2;
    EmptyRound2(Scheduled(m, 2));
    assert Rounds(EMPTY_0, m, 3) == EMPTY_3;
    EmptyRound3(Scheduled(m, 3));
    assert Rounds(EMPTY_0, m, 4) == EMPTY_4;
    EmptyRound4(Scheduled(m, 4));
    assert Rounds(EMPTY_0, m, 5) == EMPTY_5;
    EmptyRound5(Scheduled(m, 5));
    assert Rounds(EMPTY_0, m, 6) == EMPTY_6;
    EmptyRound6(Scheduled(m, 6));
    assert Rounds(EMPTY_0, m, 7) == EMPTY_7;
  }

  const EMPTY_DIGEST: seq<Word> := [
    0xAF1349B9, 0xF5F9A1A6, 0xA0404DEA, 0x36DCC949, 0x9BCB25C9, 0xADC112B7, 0xCC9A93CA, 0xE41F3262]

  lemma EmptyStart()
    ensures StartState(IV, BlockInfo(0, 0, CHUNK_START | CHUNK_END | ROOT)) == EMPTY_0
  {
    assert WordOf(0) == 0 && WordOf(0) == 0;
  }

  lemma EmptyLastState()
    ensures LastState([]) == EMPTY_7
  {
    hide Rounds, StartState, BlockInfo, Lone, BlockWords;
    EmptyStart();
    OneWordBlock([], 0x00, 0x00, 0x00, 0x00);
    assert Load32(0x00, 0x00, 0x00, 0x00) == 0x00000000;
    EmptyRounds(BlockWords(Pad([])));
  }

  lemma EmptyWords(i: nat)
    requires i < 8
    ensures Turned(Xor32(WordAt(EMPTY_7, i), WordAt(EMPTY_7, i + 8))) == EMPTY_DIGEST[i]
  {}

  /** BLAKE3(""), as the tests print it. */
  lemma EmptyAnswer(i: nat)
    requires i < 8
    ensures Printed(Hash(PLAIN, [], 0, OUT_LEN), i) == EMPTY_DIGEST[i]
  {
    hide Hash, LastState, Printed, Turned, WordAt, Xor32;
    OneBlockDigest([], i);
    EmptyLastState();
    EmptyWords(i);
  }

  // ---------- "test" ----------

  const TEST_0: State := Matrix(
    Vec4(0x6A09E667, 0xBB67AE85, 0x3C6EF372, 0xA54FF53A), Vec4(0x510E527F, 0x9B05688C, 0x1F83D9AB, 0x5BE0CD19),
    Vec4(0x6A09E667, 0xBB67AE85, 0x3C6EF372, 0xA54FF53A), Vec4(0x00000000, 0x00000000, 0x00000004, 0x0000000B))
  const TEST_0_MID: State := Matrix(
    Vec4(0xA86134FE, 0x1E51AED7, 0xC8E42DD6, 0xB86486C6), Vec4(0x520A9F8F, 0x5896CDA4, 0xC682FE58, 0x05D223ED),
    Vec4(0x7D9A510D, 0x8C8245EA, 0x2D8E4CDA, 0x5E2232F1), Vec4(0x75363B1B, 0xBA0940F8, 0x2405FD76, 0xF67A3C87))
  const TEST_1: State := Matrix(
    Vec4(0xF07B34CA, 0x8D87DA72, 0x30CF0241, 0xC8228153), Vec4(0xFA3A1659, 0x6CB60320, 0xBA5982AA, 0x79DDDE14),
    Vec4(0x8CF7BA42, 0xA0B87603, 0xB482A21E, 0x8472781E), Vec4(0x901BB34B, 0xFE21F476, 0x391301AF, 0x48CE5EC2))
  const TEST_1_MID: State := Matrix(
    Vec4(0x154D40C5, 0x8E384039, 0xCED4244E, 0x11905C0C), Vec4(0x11B7B55F, 0x88C77C69, 0x41805679, 0xCF0F5089),
    Vec4(0xF14D5A2A, 0xF0445663, 0xAF13054F, 0x4827B842), Vec4(0x6BED253A, 0x25A7DC44, 0x754B90F6, 0xC2103556))
  const TEST_2: State := Matrix(
    Vec4(0x71C0B1EF, 0x7EA439B2, 0xCC58E3BB, 0xB6DE16CC), Vec4(0x8FA51DD5, 0x03E05DDD, 0x689B2C54, 0x5B6E6166),
    Vec4(0x9945DDC9, 0x4118EFA6, 0x23851A40, 0xE37D8934), Vec4(0xE7CD2C9D, 0xFF64CB5B, 0xCF374340, 0xEBF9B8ED))
  const TEST_2_MID: State := Matrix(
    Vec4(0x9BB50371, 0x883E7862, 0xDA65F4F2, 0x4B4C6B70), Vec4(0xF798AF05, 0xB04AF76E, 0xE21A5F49, 0x8AA22DCA),
    Vec4(0x5618B156, 0x20C2578B, 0xA85E4012, 0x69E9167B), Vec4(0xD978ECE5, 0x82D4EA05, 0x31892A0F, 0xC58B9392))
  const TEST_3: State := Matrix(
    Vec4(0xEA8A18F2, 0x4BF0AFF8, 0xB49169C7, 0xA20F84BB), Vec4(0x50EFCA55, 0x1E0D4B10, 0xDC2119EA, 0x96EB8F0D),
    Vec4(0x3A4EC1C0, 0x28CF40EE, 0x982F961C, 0x7DA887B7), Vec4(0xD870BE1C, 0x1B7C288E, 0xD79275F7, 0x8683C796))
  const TEST_3_MID: State := Matrix(
    Vec4(0x2546579D, 0xF1FC2097, 0xDE17A8FD, 0xCB276294), Vec4(0x578BDD6C, 0x9D2B0C10, 0xCE4DF614, 0x8F58151D),
    Vec4(0x2C22C27D, 0x12782DC1, 0x6B9E2F2B, 0x3E26C00B), Vec4(0x94781DB4, 0x16227A52, 0xDD2851EF, 0xEC1F79DC))
  const TEST_4: State := Matrix(
    Vec4(0x4F767B66, 0xE2E28769, 0xFAE7B14C, 0x25BA7E3F), Vec4(0xC5973779, 0x572DEBAD, 0x5D0F50C5, 0x4CF9BC3D),
    Vec4(0xF1A9ED94, 0xC89C82DD, 0x8E6464EE, 0xA5301210), Vec4(0x5BE9FDD3, 0x013EAFCA, 0xA4345581, 0x08550755))
  const TEST_4_MID: State := Matrix(
    Vec4(0xC52604EF, 0x947F986B, 0xDF4291B1, 0x7F7F247F), Vec4(0xA5F8B069, 0xF7615C89, 0x67BE6B49, 0x9918A212),
    Vec4(0x4C4066C2, 0xEAC161AE, 0x587E2B13, 0x809BE34F), Vec4(0x0B8A2A4A, 0x4548A3A3, 0x7288D262, 0x9E42565E))
  const TEST_5: State := Matrix(
    Vec4(0xD19EEDC9, 0x00EAD5FF, 0x12709612, 0xC1BD2018), Vec4(0x288AAF74, 0xED133915, 0xDDE2DE7A, 0xB87EB810),
    Vec4(0x1AFDF487, 0xD912F124, 0x9C8B06A7, 0xF5C3EF25), Vec4(0x4B291422, 0x9428E43F, 0xE7C73777, 0x0CE6B8CF))
  const TEST_5_MID: State := Matrix(
    Vec4(0xA96266AD, 0x2CF0A1E9, 0xF4674AD8, 0x5B6AC585), Vec4(0x5DFC0DD4, 0x0E75E9A8, 0xA8525CD9, 0xD09F903D),
    Vec4(0x513E235E, 0x040646D2, 0x2D3DBA98, 0xAEE6F3B5), Vec4(0xAD207DD7, 0x3FC7DBD8, 0x4CB79C5D, 0x583B8DB3))
  const TEST_6: State := Matrix(
    Vec4(0xF508A569, 0x92DC6DDE, 0xA72F044D, 0xD0D7C2CC), Vec4(0x52CFB7C1, 0xA350FB9B, 0xF8B0E438, 0x4A793850),
    Vec4(0xDEB4011D, 0x70AB0FDA, 0x954D98C5, 0x115415D4), Vec4(0x488B3D89, 0x8CA7E2FE, 0x1D9FD337, 0x8A28EE4A))
  const TEST_6_MID: State := Matrix(
    Vec4(0xC2EF36B4, 0xCA96C510, 0x93B28394, 0x0D17C855), Vec4(0x46BBDF0A, 0x81130C5B, 0x12ACF500, 0x3944084B),
    Vec4(0x26F95CA9, 0x9673DBE3, 0xA5A81B06, 0x53C2E8A5), Vec4(0xE7A24C39, 0x9A41117F, 0xD4A80001, 0x2D184159))
  const TEST_7: State := Matrix(
    Vec4(0xCBB4B1E7, 0x45A96E1D, 0x7FB619BA, 0x191B5DFA), Vec4(0x46F5AE3F, 0x4044F410, 0xAE5DF42F, 0xE8FB8288),
    Vec4(0xCF7EC9AF, 0xBF90A938, 0xA5C866F8, 0x469FA3DA), Vec4(0xFCB38054, 0x0DE5164F, 0x81BE45DA, 0xFDC9E2D8))

  lemma TestRound0(v: Words16)
    requires Lone(v, 0, 0x74736574)
    ensures Round(TEST_0, v) == TEST_1
  {
    assert Columns(TEST_0, v) == TEST_0_MID;
  }

  lemma TestRound1(v: Words16)
    requires Lone(v, 5, 0x74736574)
    ensures Round(TEST_1, v) == TEST_2
  {
    assert Columns(TEST_1, v) == TEST_1_MID;
  }

  lemma TestRound2(v: Words16)
    requires Lone(v, 11, 0x74736574)
    ensures Round(TEST_2, v) == TEST_3
  {
    assert Columns(TEST_2, v) == TEST_2_MID;
  }

  lemma TestRound3(v: Words16)
    requires Lone(v, 9, 0x74736574)
    ensures Round(TEST_3, v) == TEST_4
  {
    assert Columns(TEST_3, v) == TEST_3_MID;
  }

  lemma TestRound4(v: Words16)
    requires Lone(v, 12, 0x74736574)
    ensures Round(TEST_4, v) == TEST_5
  {
    assert Columns(TEST_4, v) == TEST_4_MID;
  }

  lemma TestRound5(v: Words16)
    requires Lone(v, 10, 0x74736574)
    ensures Round(TEST_5, v) == TEST_6
  {
    assert Columns(TEST_5, v) == TEST_5_MID;
  }

  lemma TestRound6(v: Words16)
    requires Lone(v, 3, 0x74736574)
    ensures Round(TEST_6, v) == TEST_7
  {
    assert Columns(TEST_6, v) == TEST_6_MID;
  }

  lemma TestRounds(m: Words16)
    requires Lone(m, 0, 0x74736574)
    ensures Rounds(TEST_0, m, |MSG_SCHEDULE|) == TEST_7
  {
    hide Round, Scheduled, Lone;
    forall r | 0 <= r < |MSG_SCHEDULE|
      ensures Lone(Scheduled(m, r), PLACES[r], 0x74736574)
    {
      ScheduledLone(m, 0x74736574, r);
    }
    TestRound0(Scheduled(m, 0));
    assert Rounds(TEST_0, m, 1) == TEST_1;
    TestRound1(Scheduled(m, 1));
    assert Rounds(TEST_0, m, 2) == TEST_2;
    TestRound2(Scheduled(m, 2));
    assert Rounds(TEST_0, m, 3) == TEST_3;
    TestRound3(Scheduled(m, 3));
    assert Rounds(TEST_0, m, 4) == TEST_4;
    TestRound4(Scheduled(m, 4));
    assert Rounds(TEST_0, m, 5) == TEST_5;
    TestRound5(Scheduled(m, 5));
    assert Rounds(TEST_0, m, 6) == TEST_6;
    TestRound6(Scheduled(m, 6));
    assert Rounds(TEST_0, m, 7) == TEST_7;
  }

  /** The four letters. */
  const TEST: seq<Byte> := [0x74, 0x65, 0x73, 0x74]

  const TEST_DIGEST: seq<Word> := [
    0x4878CA04, 0x25C739FA, 0x427F7EDA, 0x20FE845F, 0x6B2E46BA, 0x5FE2A14D, 0xF5B1E32F, 0x50603215]

  lemma TestStart()
    ensures StartState(IV, BlockInfo(4, 0, CHUNK_START | CHUNK_END | ROOT)) == TEST_0
  {
    assert WordOf(0) == 0 && WordOf(4) == 4;
  }

  lemma TestLastState()
    ensures LastState(TEST) == TEST_7
  {
    hide Rounds, StartState, BlockInfo, Lone, BlockWords;
    TestStart();
    OneWordBlock(TEST, 0x74, 0x65, 0x73, 0x74);
    assert Load32(0x74, 0x65, 0x73, 0x74) == 0x74736574;
    TestRounds(BlockWords(Pad(TEST)));
  }

  lemma TestWords(i: nat)
    requires i < 8
    ensures Turned(Xor32(WordAt(TEST_7, i), WordAt(TEST_7, i + 8))) == TEST_DIGEST[i]
  {}

  /** BLAKE3("test"), as the tests print it. */
  lemma TestAnswer(i: nat)
    requires i < 8
    ensures Printed(Hash(PLAIN, TEST, 0, OUT_LEN), i) == TEST_DIGEST[i]
  {
    hide Hash, LastState, Printed, Turned, WordAt, Xor32;
    OneBlockDigest(TEST, i);
    TestLastState();
    TestWords(i);
  }
}
