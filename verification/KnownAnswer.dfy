/** A digest that the tests of the repository expect, derived in the model: that of a file with the eleven
    characters 111XXXYYYZZ. The rounds are evaluated on machine words. */
module KnownAnswer {
  import opened Bits
  import opened Words
  import opened Tree
  import opened Portable
  import opened Machine
  import opened MachineRounds

  const CONTENTS: seq<Byte> := [0x31, 0x31, 0x31, 0x58, 0x58, 0x58, 0x59, 0x59, 0x59, 0x5A, 0x5A]

  const BLOCK: Block := PadBlock(CONTENTS)

  const M0: Matrix<bv32> :=
    Matrix(Quad(0x58313131, 0x59595858, 0x5A5A59, 0), Quad(0, 0, 0, 0), Quad(0, 0, 0, 0), Quad(0, 0, 0, 0))
  const M1: Matrix<bv32> :=
    Matrix(Quad(0x5A5A59, 0, 0, 0), Quad(0, 0x58313131, 0, 0), Quad(0x59595858, 0, 0, 0), Quad(0, 0, 0, 0))
  const M2: Matrix<bv32> :=
    Matrix(Quad(0, 0, 0, 0), Quad(0, 0x5A5A59, 0, 0), Quad(0, 0, 0, 0x58313131), Quad(0, 0, 0, 0x59595858))
  const M3: Matrix<bv32> :=
    Matrix(Quad(0, 0, 0, 0), Quad(0, 0, 0, 0), Quad(0, 0x58313131, 0, 0x5A5A59), Quad(0, 0, 0x59595858, 0))
  const M4: Matrix<bv32> :=
    Matrix(Quad(0, 0, 0, 0), Quad(0, 0, 0, 0), Quad(0, 0x5A5A59, 0, 0), Quad(0x58313131, 0x59595858, 0, 0))
  const M5: Matrix<bv32> :=
    Matrix(Quad(0, 0, 0, 0), Quad(0, 0, 0, 0x59595858), Quad(0, 0, 0x58313131, 0), Quad(0x5A5A59, 0, 0, 0))
  const M6: Matrix<bv32> :=
    Matrix(Quad(0, 0, 0, 0x58313131), Quad(0x59595858, 0, 0, 0), Quad(0, 0, 0x5A5A59, 0), Quad(0, 0, 0, 0))

  // The state before the first round and after each.
  const V0: Matrix<bv32> :=
    Matrix(Quad(0x6A09E667, 0x510E527F, 0x6A09E667, 0), Quad(0xBB67AE85, 0x9B05688C, 0xBB67AE85, 0),
           Quad(0x3C6EF372, 0x1F83D9AB, 0x3C6EF372, 0xB), Quad(0xA54FF53A, 0x5BE0CD19, 0xA54FF53A, 0xB))
  const V1: Matrix<bv32> :=
    Matrix(Quad(0x817C421F, 0x59A5CB29, 0x30AB5891, 0xC1F86511), Quad(0x97409977, 0x4B900760, 0x79467EC3, 0x627AE8E6),
           Quad(0x93230F97, 0xD8E2152D, 0xBAD35F65, 0xF32EBBAF), Quad(0x1CB9AAE3, 0x6BE98FCD, 0x8F4020B8, 0xCEEF24BA))
  const V2: Matrix<bv32> :=
    Matrix(Quad(0xA9586D0F, 0x21B75970, 0xF2F4F5ED, 0xACE5AF17), Quad(0x4D50366D, 0xF8095DA, 0xAC227B12, 0x27BBC20E),
           Quad(0x34BDC39A, 0x8B0D136F, 0xAA0BEBB8, 0x2CE1A227), Quad(0x203F6783, 0xFE3A6BC, 0xA53A6DBE, 0x13FAEAF0))
  const V3: Matrix<bv32> :=
    Matrix(Quad(0x40E1DDF1, 0x784690D0, 0x9EF65EB4, 0xC402D5E5), Quad(0xE1005B, 0x952F78FA, 0xBDFAD407, 0xEB7C5E54),
           Quad(0x1DC1E62C, 0xBC389900, 0xAD3F44C2, 0x6405F13A), Quad(0xD1EDC9B, 0xD4CF2BBF, 0x8B87616A, 0xE9F0C7E0))
  const V4: Matrix<bv32> :=
    Matrix(Quad(0x64422DD4, 0x1808478D, 0x456CE8B5, 0x91AFB05F), Quad(0x233099A, 0xF1B1845F, 0x8947ADF5, 0xC2067216),
           Quad(0x7F087D1A, 0x597982CE, 0x11B76DAC, 0x4782296D), Quad(0xF396E16D, 0x7976B4EA, 0xBB3F4CFB, 0x8503044F))
  const V5: Matrix<bv32> :=
    Matrix(Quad(0xCEAE9B62, 0xCB916440, 0xA64FFC8F, 0xEFE4BC3C), Quad(0xF31ED1C0, 0x9E881E59, 0xE705B1C7, 0xD43468A6),
           Quad(0x7C4F9109, 0xABCA9C10, 0x6D31A955, 0xD4DA89B0), Quad(0x262975CD, 0x7D825122, 0x85F936A5, 0x6E2DF00F))
  const V6: Matrix<bv32> :=
    Matrix(Quad(0xC92BCC36, 0x65D5631A, 0xA16824DA, 0x2AA31730), Quad(0x831B5A37, 0x720CC44A, 0x4FEFF993, 0xBD4CB758),
           Quad(0xFDDA267B, 0x5064F875, 0x251CE140, 0xD205F3CC), Quad(0x8D9FC8FF, 0x2AA6649F, 0x5204C771, 0xE08F6F23))
  const V7: Matrix<bv32> :=
    Matrix(Quad(0xF888921E, 0xE77DC3C7, 0xD5E1EF64, 0x8DC10ED7), Quad(0x185B8AE0, 0x858228A5, 0x6D712A1C, 0x490B3CB8),
           Quad(0x272DC375, 0xEC37A43D, 0xADB7291A, 0x27FD8948), Quad(0x20203BBE, 0x89882226, 0x2718ABC9, 0xBBF18532))

  lemma Quarters1()
    ensures QuarterOf(Quad(0x6A09E667, 0x510E527F, 0x6A09E667, 0), 0x58313131, 0x59595858)
            == Quad(0x299B1559, 0xB8B139AE, 0xE46485B6, 0x10438C06)
    ensures QuarterOf(Quad(0xBB67AE85, 0x9B05688C, 0xBB67AE85, 0), 0x5A5A59, 0)
            == Quad(0x32D2EEE0, 0xE5103D86, 0x5415BE04, 0x2743B8B8)
    ensures QuarterOf(Quad(0x3C6EF372, 0x1F83D9AB, 0x3C6EF372, 0xB), 0, 0)
            == Quad(0xC8E42D86, 0x6622F443, 0x7D8B41DA, 0x7405F276)
    ensures QuarterOf(Quad(0xA54FF53A, 0x5BE0CD19, 0xA54FF53A, 0xB), 0, 0)
            == Quad(0xB86486C6, 0x5D223ED, 0x5E2232F1, 0xF67A3C87)
    ensures QuarterOf(Quad(0x299B1559, 0xE5103D86, 0x7D8B41DA, 0xF67A3C87), 0, 0)
            == Quad(0x817C421F, 0x4B900760, 0xBAD35F65, 0xCEEF24BA)
    ensures QuarterOf(Quad(0x32D2EEE0, 0x6622F443, 0x5E2232F1, 0x10438C06), 0, 0)
            == Quad(0x97409977, 0xD8E2152D, 0x8F4020B8, 0xC1F86511)
    ensures QuarterOf(Quad(0xC8E42D86, 0x5D223ED, 0xE46485B6, 0x2743B8B8), 0, 0)
            == Quad(0x93230F97, 0x6BE98FCD, 0x30AB5891, 0x627AE8E6)
    ensures QuarterOf(Quad(0xB86486C6, 0xB8B139AE, 0x5415BE04, 0x7405F276), 0, 0)
            == Quad(0x1CB9AAE3, 0x59A5CB29, 0x79467EC3, 0xF32EBBAF)
  {
  }

  lemma Round1()
    ensures Round(V0, M0) == V1
  {
    hide QuarterOf;
    Quarters1();
  }

  lemma Quarters2()
    ensures QuarterOf(Quad(0x817C421F, 0x59A5CB29, 0x30AB5891, 0xC1F86511), 0x5A5A59, 0)
            == Quad(0x5F43178C, 0x9370FF93, 0x3BB96622, 0x85DF30D)
    ensures QuarterOf(Quad(0x97409977, 0x4B900760, 0x79467EC3, 0x627AE8E6), 0, 0)
            == Quad(0x63A94F56, 0x867AF66C, 0xBDA3983C, 0xFC2B98CF)
    ensures QuarterOf(Quad(0x93230F97, 0xD8E2152D, 0xBAD35F65, 0xF32EBBAF), 0, 0x58313131)
            == Quad(0x800E83C3, 0xC5F30C9C, 0x425E63AC, 0xE81F651C)
    ensures QuarterOf(Quad(0x1CB9AAE3, 0x6BE98FCD, 0x8F4020B8, 0xCEEF24BA), 0, 0)
            == Quad(0x153FA4EE, 0xB18793ED, 0x4F559CE6, 0xA20B35E2)
    ensures QuarterOf(Quad(0x5F43178C, 0x867AF66C, 0x425E63AC, 0xA20B35E2), 0x59595858, 0)
            == Quad(0xA9586D0F, 0xF8095DA, 0xAA0BEBB8, 0x13FAEAF0)
    ensures QuarterOf(Quad(0x63A94F56, 0xC5F30C9C, 0x4F559CE6, 0x85DF30D), 0, 0)
            == Quad(0x4D50366D, 0x8B0D136F, 0xA53A6DBE, 0xACE5AF17)
    ensures QuarterOf(Quad(0x800E83C3, 0xB18793ED, 0x3BB96622, 0xFC2B98CF), 0, 0)
            == Quad(0x34BDC39A, 0xFE3A6BC, 0xF2F4F5ED, 0x27BBC20E)
    ensures QuarterOf(Quad(0x153FA4EE, 0x9370FF93, 0xBDA3983C, 0xE81F651C), 0, 0)
            == Quad(0x203F6783, 0x21B75970, 0xAC227B12, 0x2CE1A227)
  {
  }

  lemma Round2()
    ensures Round(V1, M1) == V2
  {
    hide QuarterOf;
    Quarters2();
  }

  lemma Quarters3()
    ensures QuarterOf(Quad(0xA9586D0F, 0x21B75970, 0xF2F4F5ED, 0xACE5AF17), 0, 0)
            == Quad(0x1587A51F, 0x72375B26, 0x51DA4D99, 0xF57CEFC2)
    ensures QuarterOf(Quad(0x4D50366D, 0xF8095DA, 0xAC227B12, 0x27BBC20E), 0, 0)
            == Quad(0x974C2AFD, 0xF0D6FF4A, 0x5104FBCE, 0x96990551)
    ensures QuarterOf(Quad(0x34BDC39A, 0x8B0D136F, 0xAA0BEBB8, 0x2CE1A227), 0, 0x5A5A59)
            == Quad(0x98EE74D8, 0x7997C2F9, 0x13283FCA, 0xF3EDC0E7)
    ensures QuarterOf(Quad(0x203F6783, 0xFE3A6BC, 0xA53A6DBE, 0x13FAEAF0), 0, 0)
            == Quad(0xA2DB6CE2, 0x8B6FEFF6, 0xC54FA5E6, 0x3B46144F)
    ensures QuarterOf(Quad(0x1587A51F, 0xF0D6FF4A, 0x13283FCA, 0x3B46144F), 0, 0)
            == Quad(0x40E1DDF1, 0x952F78FA, 0xAD3F44C2, 0xE9F0C7E0)
    ensures QuarterOf(Quad(0x974C2AFD, 0x7997C2F9, 0xC54FA5E6, 0xF57CEFC2), 0, 0x58313131)
            == Quad(0xE1005B, 0xBC389900, 0x8B87616A, 0xC402D5E5)
    ensures QuarterOf(Quad(0x98EE74D8, 0x8B6FEFF6, 0x51DA4D99, 0x96990551), 0, 0)
            == Quad(0x1DC1E62C, 0xD4CF2BBF, 0x9EF65EB4, 0xEB7C5E54)
    ensures QuarterOf(Quad(0xA2DB6CE2, 0x72375B26, 0x5104FBCE, 0xF3EDC0E7), 0, 0x59595858)
            == Quad(0xD1EDC9B, 0x784690D0, 0xBDFAD407, 0x6405F13A)
  {
  }

  lemma Round3()
    ensures Round(V2, M2) == V3
  {
    hide QuarterOf;
    Quarters3();
  }

  lemma Quarters4()
    ensures QuarterOf(Quad(0x40E1DDF1, 0x784690D0, 0x9EF65EB4, 0xC402D5E5), 0, 0)
            == Quad(0x6A0A9485, 0x7721C5E, 0x9EC0AC7, 0xAFD12EE9)
    ensures QuarterOf(Quad(0xE1005B, 0x952F78FA, 0xBDFAD407, 0xEB7C5E54), 0, 0)
            == Quad(0x2EA79687, 0xD89125CA, 0xD005F85E, 0xEB09A6EB)
    ensures QuarterOf(Quad(0x1DC1E62C, 0xBC389900, 0xAD3F44C2, 0x6405F13A), 0, 0)
            == Quad(0x9612F615, 0xCB32ECE3, 0x256E070C, 0xEA18044B)
    ensures QuarterOf(Quad(0xD1EDC9B, 0xD4CF2BBF, 0x8B87616A, 0xE9F0C7E0), 0, 0)
            == Quad(0x567013E, 0xEABEE97C, 0x7C0C4691, 0x20CADD09)
    ensures QuarterOf(Quad(0x6A0A9485, 0xD89125CA, 0x256E070C, 0x20CADD09), 0, 0x58313131)
            == Quad(0x64422DD4, 0xF1B1845F, 0x11B76DAC, 0x8503044F)
    ensures QuarterOf(Quad(0x2EA79687, 0xCB32ECE3, 0x7C0C4691, 0xAFD12EE9), 0, 0x5A5A59)
            == Quad(0x233099A, 0x597982CE, 0xBB3F4CFB, 0x91AFB05F)
    ensures QuarterOf(Quad(0x9612F615, 0xEABEE97C, 0x9EC0AC7, 0xEB09A6EB), 0, 0)
            == Quad(0x7F087D1A, 0x7976B4EA, 0x456CE8B5, 0xC2067216)
    ensures QuarterOf(Quad(0x567013E, 0x7721C5E, 0xD005F85E, 0xEA18044B), 0x59595858, 0)
            == Quad(0xF396E16D, 0x1808478D, 0x8947ADF5, 0x4782296D)
  {
  }

  lemma Round4()
    ensures Round(V3, M3) == V4
  {
    hide QuarterOf;
    Quarters4();
  }

  lemma Quarters5()
    ensures QuarterOf(Quad(0x64422DD4, 0x1808478D, 0x456CE8B5, 0x91AFB05F), 0, 0)
            == Quad(0x8DBB9F9A, 0x6B310AEC, 0x89F45C0C, 0x7F488572)
    ensures QuarterOf(Quad(0x233099A, 0xF1B1845F, 0x8947ADF5, 0xC2067216), 0, 0)
            == Quad(0xAC6C166E, 0x175A1BD5, 0x158A62FE, 0x8C538327)
    ensures QuarterOf(Quad(0x7F087D1A, 0x597982CE, 0x11B76DAC, 0x4782296D), 0, 0)
            == Quad(0xBE9D1430, 0xE5FB7C62, 0x1BA5253A, 0x3368188B)
    ensures QuarterOf(Quad(0xF396E16D, 0x7976B4EA, 0xBB3F4CFB, 0x8503044F), 0, 0)
            == Quad(0x8B40D93F, 0xA4C0859F, 0x7E718D3A, 0x31195831)
    ensures QuarterOf(Quad(0x8DBB9F9A, 0x175A1BD5, 0x1BA5253A, 0x31195831), 0, 0x5A5A59)
            == Quad(0xCEAE9B62, 0x9E881E59, 0x6D31A955, 0x6E2DF00F)
    ensures QuarterOf(Quad(0xAC6C166E, 0xE5FB7C62, 0x7E718D3A, 0x7F488572), 0, 0)
            == Quad(0xF31ED1C0, 0xABCA9C10, 0x85F936A5, 0xEFE4BC3C)
    ensures QuarterOf(Quad(0xBE9D1430, 0xA4C0859F, 0x89F45C0C, 0x8C538327), 0x58313131, 0x59595858)
            == Quad(0x7C4F9109, 0x7D825122, 0xA64FFC8F, 0xD43468A6)
    ensures QuarterOf(Quad(0x8B40D93F, 0x6B310AEC, 0x158A62FE, 0x3368188B), 0, 0)
            == Quad(0x262975CD, 0xCB916440, 0xE705B1C7, 0xD4DA89B0)
  {
  }

  lemma Round5()
    ensures Round(V4, M4) == V5
  {
    hide QuarterOf;
    Quarters5();
  }

  lemma Quarters6()
    ensures QuarterOf(Quad(0xCEAE9B62, 0xCB916440, 0xA64FFC8F, 0xEFE4BC3C), 0, 0)
            == Quad(0xFCE22793, 0x9AA01F92, 0x32ADEEBC, 0x48BF7C52)
    ensures QuarterOf(Quad(0xF31ED1C0, 0x9E881E59, 0xE705B1C7, 0xD43468A6), 0, 0)
            == Quad(0x21B504E7, 0xA8CAE02A, 0xF57E019A, 0x75B90A41)
    ensures QuarterOf(Quad(0x7C4F9109, 0xABCA9C10, 0x6D31A955, 0xD4DA89B0), 0, 0)
            == Quad(0xC875CE2C, 0xA8BC2646, 0xFE488247, 0xEC6CDC32)
    ensures QuarterOf(Quad(0x262975CD, 0x7D825122, 0x85F936A5, 0x6E2DF00F), 0, 0x59595858)
            == Quad(0x4DA134CC, 0x42AF92A7, 0x7554624, 0x4A7B41F9)
    ensures QuarterOf(Quad(0xFCE22793, 0xA8CAE02A, 0xFE488247, 0x4A7B41F9), 0, 0)
            == Quad(0xC92BCC36, 0x720CC44A, 0x251CE140, 0xE08F6F23)
    ensures QuarterOf(Quad(0x21B504E7, 0xA8BC2646, 0x7554624, 0x48BF7C52), 0x58313131, 0)
            == Quad(0x831B5A37, 0x5064F875, 0x5204C771, 0x2AA31730)
    ensures QuarterOf(Quad(0xC875CE2C, 0x42AF92A7, 0x32ADEEBC, 0x75B90A41), 0x5A5A59, 0)
            == Quad(0xFDDA267B, 0x2AA6649F, 0xA16824DA, 0xBD4CB758)
    ensures QuarterOf(Quad(0x4DA134CC, 0x9AA01F92, 0xF57E019A, 0xEC6CDC32), 0, 0)
            == Quad(0x8D9FC8FF, 0x65D5631A, 0x4FEFF993, 0xD205F3CC)
  {
  }

  lemma Round6()
    ensures Round(V5, M5) == V6
  {
    hide QuarterOf;
    Quarters6();
  }

  lemma Quarters7()
    ensures QuarterOf(Quad(0xC92BCC36, 0x65D5631A, 0xA16824DA, 0x2AA31730), 0, 0)
            == Quad(0xC56CF124, 0x49ED5DED, 0x60C53770, 0x86FD0CF4)
    ensures QuarterOf(Quad(0x831B5A37, 0x720CC44A, 0x4FEFF993, 0xBD4CB758), 0, 0x58313131)
            == Quad(0xA9320C0A, 0xC6782522, 0x67CA2D3B, 0x6E00EB44)
    ensures QuarterOf(Quad(0xFDDA267B, 0x5064F875, 0x251CE140, 0xD205F3CC), 0x59595858, 0)
            == Quad(0x922813A2, 0x32046F3E, 0xE8B80343, 0x3F16AC66)
    ensures QuarterOf(Quad(0x8D9FC8FF, 0x2AA6649F, 0x5204C771, 0xE08F6F23), 0, 0)
            == Quad(0x2A213E2, 0x8314B3B3, 0xC0023F85, 0x2B401F4B)
    ensures QuarterOf(Quad(0xC56CF124, 0xC6782522, 0xE8B80343, 0x2B401F4B), 0, 0)
            == Quad(0xF888921E, 0x858228A5, 0xADB7291A, 0xBBF18532)
    ensures QuarterOf(Quad(0xA9320C0A, 0x32046F3E, 0xC0023F85, 0x86FD0CF4), 0x5A5A59, 0)
            == Quad(0x185B8AE0, 0xEC37A43D, 0x2718ABC9, 0x8DC10ED7)
    ensures QuarterOf(Quad(0x922813A2, 0x8314B3B3, 0x60C53770, 0x6E00EB44), 0, 0)
            == Quad(0x272DC375, 0x89882226, 0xD5E1EF64, 0x490B3CB8)
    ensures QuarterOf(Quad(0x2A213E2, 0x49ED5DED, 0x67CA2D3B, 0x3F16AC66), 0, 0)
            == Quad(0x20203BBE, 0xE77DC3C7, 0x6D712A1C, 0x27FD8948)
  {
  }

  lemma Round7()
    ensures Round(V6, M6) == V7
  {
    hide QuarterOf;
    Quarters7();
  }

  lemma Shuffles()
    ensures Shuffle(M0) == M1
    ensures Shuffle(M1) == M2
    ensures Shuffle(M2) == M3
    ensures Shuffle(M3) == M4
    ensures Shuffle(M4) == M5
    ensures Shuffle(M5) == M6
  {
  }

  lemma SevenRounds()
    ensures Rounds(V0, M0, 7) == V7
  {
    hide Round, Shuffle;
    Shuffles();
    Round1();
    Round2();
    Round3();
    Round4();
    Round5();
    Round6();
    Round7();
    assert Rounds(V6, M6, 1) == V7;
    assert Rounds(V5, M5, 2) == V7;
    assert Rounds(V4, M4, 3) == V7;
    assert Rounds(V3, M3, 4) == V7;
    assert Rounds(V2, M2, 5) == V7;
    assert Rounds(V1, M1, 6) == V7;
  }

  // ----- the words of the key, of the block and of the digest

  const KEY: Chain :=
    [0x6A09E667, 0xBB67AE85, 0x3C6EF372, 0xA54FF53A, 0x510E527F, 0x9B05688C, 0x1F83D9AB, 0x5BE0CD19]

  lemma KeyWords()
    ensures AsChain(KEY) == IV
  {
    hide Num;
    forall i | 0 <= i < 8 ensures AsWord(KEY[i]) == IV[i] {
      LiteralNum(KEY[i]);
    }
  }

  lemma LiteralWords()
    ensures AsWord(0) == 0 && AsWord(0x58313131) == 0x58313131 && AsWord(0x59595858) == 0x59595858
    ensures AsWord(0x5A5A59) == 0x5A5A59 && AsWord(0xB) == 0xB
    ensures AsWord(0x2D697D7A) == 0x2D697D7A && AsWord(0x752AA0FC) == 0x752AA0FC
    ensures AsWord(0x8A9AEA6F) == 0x8A9AEA6F && AsWord(0x7389077) == 0x7389077
  {
    hide Num;
    LiteralNum(0);
    LiteralNum(0x58313131);
    LiteralNum(0x59595858);
    LiteralNum(0x5A5A59);
    LiteralNum(0xB);
    LiteralNum(0x2D697D7A);
    LiteralNum(0x752AA0FC);
    LiteralNum(0x8A9AEA6F);
    LiteralNum(0x7389077);
  }

  lemma MessageWords()
    ensures BlockWords(BLOCK) == AsWords(M0)
  {
    hide AsWord, LoadWords;
    LiteralWords();
    LoadWordsAt(BLOCK, 0);
    LoadWordsAt(BLOCK, 1);
    LoadWordsAt(BLOCK, 2);
    forall i | 3 <= i < 16 ensures BlockWords(BLOCK)[i] == 0 {
      LoadWordsAt(BLOCK, i);
    }
  }

  lemma FinishDigest()
    ensures Finish(V7)[0] == 0x2D697D7A && Finish(V7)[1] == 0x752AA0FC
    ensures Finish(V7)[2] == 0x8A9AEA6F && Finish(V7)[3] == 0x7389077
  {
  }

  lemma Compressed()
    ensures XofBytes(IV, BLOCK, 11, 0, 11) == StoreWords(AsChain(Finish(V7)) + AsChain(Extend(V7, KEY)))
  {
    hide *;
    KeyWords();
    MessageWords();
    LiteralWords();
    SevenRounds();
    Started();
    Compression(KEY, BLOCK, M0, 0, 0, 0xB, 0xB);
  }

  lemma Started()
    ensures Start(KEY, 0, 0, 0xB, 0xB) == V0
  {
  }

  lemma OutputWord(i: nat)
    requires i < 4
    ensures XofBytes(IV, BLOCK, 11, 0, 11)[4 * i..4 * i + 4] == Store32(AsWord(Finish(V7)[i]))
  {
    hide XofBytes, AsWord, Finish, Extend, Store32;
    Compressed();
    var ws := AsChain(Finish(V7)) + AsChain(Extend(V7, KEY));
    StoreWordsAt(ws, i, 0);
    StoreWordsAt(ws, i, 1);
    StoreWordsAt(ws, i, 2);
    StoreWordsAt(ws, i, 3);
  }

  lemma Stored(w: Word, b0: Byte, b1: Byte, b2: Byte, b3: Byte)
    requires w == Load32(b0, b1, b2, b3)
    ensures Store32(w) == [b0, b1, b2, b3]
  {
    StoreLoad32(b0, b1, b2, b3);
  }

  lemma DigestBytes()
    ensures XofBytes(IV, BLOCK, 11, 0, 11)[..16]
         == [0x7A, 0x7D, 0x69, 0x2D, 0xFC, 0xA0, 0x2A, 0x75, 0x6F, 0xEA, 0x9A, 0x8A, 0x77, 0x90, 0x38, 0x07]
  {
    hide XofBytes, AsWord, Finish, Store32;
    FinishDigest();
    Stored(0x2D697D7A, 0x7A, 0x7D, 0x69, 0x2D);
    Stored(0x752AA0FC, 0xFC, 0xA0, 0x2A, 0x75);
    Stored(0x8A9AEA6F, 0x6F, 0xEA, 0x9A, 0x8A);
    Stored(0x7389077, 0x77, 0x90, 0x38, 0x07);
    LiteralWords();
    OutputWord(0);
    OutputWord(1);
    OutputWord(2);
    OutputWord(3);
    var x := XofBytes(IV, BLOCK, 11, 0, 11);
    assert x[..16] == x[0..4] + x[4..8] + x[8..12] + x[12..16];
  }

  lemma Flags()
    ensures BitOr(BitOr(0, 1), 2) == 3 && BitOr(3, 8) == 11
  {
  }

  /** The digest in the tests of the repository. */
  lemma Somefile()
    ensures Hash(PortableMode(IV, 0), CONTENTS, 0, 16)
         == [0x7A, 0x7D, 0x69, 0x2D, 0xFC, 0xA0, 0x2A, 0x75, 0x6F, 0xEA, 0x9A, 0x8A, 0x77, 0x90, 0x38, 0x07]
  {
    hide XofBytes, BitOr, CompressWords;
    Flags();
    DigestBytes();
    var m := PortableMode(IV, 0);
    assert CONTENTS[0..] == CONTENTS;
    assert TreeOutput(m, CONTENTS, 0) == Output(IV, 0, BLOCK, 11, 3);
    var x := XofBytes(IV, BLOCK, 11, 0, 11);
    forall i | 0 <= i < 16 ensures RootByte(m, Output(IV, 0, BLOCK, 11, 3), i) == x[..16][i] {
      assert i / 64 == 0 && i % 64 == i;
    }
  }

}
