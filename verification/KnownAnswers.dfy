// What Shabal-256 computes on given inputs. The initial values are derived from the zero
// state, and the library's own test message has the digest its test expects: both fix the
// rotations, the indices and the constants of the specification.
module KnownAnswers {
  import opened Words
  import opened KeyedPermutation
  import opened Shabal
  import opened MachineWords
  import opened MachineShabal

  // ----- the initial values -----

  // In a trace, S0, S1, ... are the states between rounds, S0Two and S0All the registers of the
  // first round after two of its three passes and after all of them.

  const S0 := Chain(
    Twelve(0, 0, 0, 0, 0, 0, 0, 0, 0, 0, 0, 0),
    Sixteen(0, 0, 0, 0, 0, 0, 0, 0, 0, 0, 0, 0, 0, 0, 0, 0),
    Sixteen(0, 0, 0, 0, 0, 0, 0, 0, 0, 0, 0, 0, 0, 0, 0, 0))

  const M0 := Sixteen(
    0x00000100, 0x00000101, 0x00000102, 0x00000103, 0x00000104, 0x00000105, 0x00000106, 0x00000107,
    0x00000108, 0x00000109, 0x0000010A, 0x0000010B, 0x0000010C, 0x0000010D, 0x0000010E, 0x0000010F)

  const M1 := Sixteen(
    0x00000110, 0x00000111, 0x00000112, 0x00000113, 0x00000114, 0x00000115, 0x00000116, 0x00000117,
    0x00000118, 0x00000119, 0x0000011A, 0x0000011B, 0x0000011C, 0x0000011D, 0x0000011E, 0x0000011F)

  const S0Two := Registers(
    Twelve(
      0xA72272C9, 0xB2929B0B, 0x78EE6F01, 0xC3B82A6F, 0xFF750C93, 0xE5788A46, 0x9BBD7565, 0xCC341456,
      0xAD7FFC12, 0xCE83FA1C, 0x6511FD37, 0xE0E9DCD1),
    Sixteen(
      0x14F4A4C4, 0xCDE737FE, 0x5675BD47, 0x7A96E075, 0xAE138F94, 0x730BB19D, 0xE8CFD03E, 0x2F12DCBE,
      0x0AB40ABF, 0x0D3F0AB1, 0xE49C3B9E, 0x1C0110D8, 0xF96173D7, 0x4BFF3BAF, 0xE11D1D2E, 0xE166D991))

  const S0All := Registers(
    Twelve(
      0x79F023D8, 0x708745B8, 0xB2D69F0A, 0xAB24079A, 0x4C77DDAC, 0xB4B92870, 0x88E6ECE2, 0x747657E4,
      0x3395A2D7, 0x5A9826A0, 0x0D578B50, 0x68F97918),
    Sixteen(
      0xB555C7FE, 0x3E7106A7, 0xA72A6641, 0x93015272, 0xDA28C30E, 0x696FD97D, 0x9CB6C088, 0x0AFE4119,
      0xA6E0372D, 0x5138C2ED, 0xBE216420, 0xB38B89AB, 0x3EA8BA87, 0x3299AE01, 0x30924EF2, 0x55CB35C4))

  const S1 := Chain(
    Twelve(
      0x79F023D8, 0x708745B8, 0xB2D69F0A, 0xAB24079A, 0x4C77DDAC, 0xB4B92870, 0x88E6ECE2, 0x747657E4,
      0x3395A2D7, 0x5A9826A0, 0x0D578B50, 0x68F97918),
    Sixteen(
      0xFFFFFF00, 0xFFFFFEFF, 0xFFFFFEFE, 0xFFFFFEFD, 0xFFFFFEFC, 0xFFFFFEFB, 0xFFFFFEFA, 0xFFFFFEF9,
      0xFFFFFEF8, 0xFFFFFEF7, 0xFFFFFEF6, 0xFFFFFEF5, 0xFFFFFEF4, 0xFFFFFEF3, 0xFFFFFEF2, 0xFFFFFEF1),
    Sixteen(
      0xB555C7FE, 0x3E7106A7, 0xA72A6641, 0x93015272, 0xDA28C30E, 0x696FD97D, 0x9CB6C088, 0x0AFE4119,
      0xA6E0372D, 0x5138C2ED, 0xBE216420, 0xB38B89AB, 0x3EA8BA87, 0x3299AE01, 0x30924EF2, 0x55CB35C4))

  lemma TwoS0()
    ensures Pass(Pass(Opened(S0, 0xFFFF_FFFF, 0xFFFF_FFFF, M0), S0.c, M0), S0.c, M0) == S0Two
  {
  }

  lemma RestS0()
    ensures Pass(S0Two, S0.c, M0) == S0All
    ensures Closed(S0, M0, S0All) == S1
  {
  }

  const S1Two := Registers(
    Twelve(
      0x10A66C48, 0xD8CCDB49, 0x02B680C7, 0xAB645FCF, 0xD455C979, 0x9F6F4358, 0x7F3D0246, 0xE8A1F260,
      0xBE9C04EA, 0x15A315D0, 0x279AC5A8, 0x1C34F0F3),
    Sixteen(
      0x5923FD91, 0x9DEBD978, 0x66452E00, 0x8510F1DD, 0x4621F210, 0x25FE398C, 0xFD1765AF, 0x2B37300D,
      0x4DBB5054, 0x8D0059EA, 0xA9F45566, 0xE963DA91, 0x4015256C, 0x3DF13409, 0x23E389D5, 0x9D80D017))

  const S1All := Registers(
    Twelve(
      0xB6A03371, 0x17243406, 0x531455C7, 0x44F0DBD6, 0xEC3CC237, 0x851D8290, 0xD99C1EB9, 0xAED060A3,
      0xC3433D0F, 0x62FD9C1A, 0x02BB7200, 0x5FB743B0),
    Sixteen(
      0xB405F031, 0xC4233EBA, 0xB3733979, 0xC0DD9D55, 0xC51C28AE, 0xA327B8E1, 0x56C56167, 0xED614433,
      0x88B59D60, 0x60E2CEBA, 0x758B4B8B, 0x83E82A7F, 0xBC968828, 0xE6E00BF7, 0xBA839E55, 0x9B491C60))

  const S2 := Chain(
    Twelve(
      0x52F84552, 0xE54B7999, 0x2D8EE3EC, 0xB9645191, 0xE0078B86, 0xBB7C44C9, 0xD2B5C1CA, 0xB0D2EB8C,
      0x14CE5A45, 0x22AF50DC, 0xEFFDBC6B, 0xEB21B74A),
    Sixteen(
      0xB555C6EE, 0x3E710596, 0xA72A652F, 0x9301515F, 0xDA28C1FA, 0x696FD868, 0x9CB6BF72, 0x0AFE4002,
      0xA6E03615, 0x5138C1D4, 0xBE216306, 0xB38B8890, 0x3EA8B96B, 0x3299ACE4, 0x30924DD4, 0x55CB34A5),
    Sixteen(
      0xB405F031, 0xC4233EBA, 0xB3733979, 0xC0DD9D55, 0xC51C28AE, 0xA327B8E1, 0x56C56167, 0xED614433,
      0x88B59D60, 0x60E2CEBA, 0x758B4B8B, 0x83E82A7F, 0xBC968828, 0xE6E00BF7, 0xBA839E55, 0x9B491C60))

  lemma TwoS1()
    ensures Pass(Pass(Opened(S1, 0, 0, M1), S1.c, M1), S1.c, M1) == S1Two
  {
  }

  lemma RestS1()
    ensures Pass(S1Two, S1.c, M1) == S1All
    ensures Closed(S1, M1, S1All) == S2
  {
  }

  const ZERO := State(seq(12, _ => 0), seq(16, _ => 0), seq(16, _ => 0))

  function Numbers(n: nat): Block
    requires n + 16 <= WORD_RANGE
  {
    seq(16, i requires 0 <= i < 16 => n + i)
  }

  lemma ZeroBits()
    ensures Is(ZERO, S0)
  {
    Literals(0);
    hide Num;
  }

  lemma FirstNumbers()
    ensures Is16(Numbers(256), M0)
  {
  }

  lemma SecondNumbers()
    ensures Is16(Numbers(272), M1)
  {
  }

  lemma InitA()
    ensures Is12(A_INIT, S2.a)
  {
  }

  lemma InitB()
    ensures Is16(B_INIT, S2.b)
  {
  }

  lemma InitC()
    ensures Is16(C_INIT, S2.c)
  {
  }

  lemma SameBits(s: State, t: State, q: Chain)
    requires Is(s, q) && Is(t, q)
    ensures s == t
  {
    hide Num, At12, At16;
  }

  // The initial values are what two rounds make of the zero state.
  lemma InitialValues()
    ensures INIT == Round(Round(ZERO, MAX_U64, Numbers(256)), 0, Numbers(272))
  {
    hide Round, Pass, Opened, Closed, Is, Is12, Is16, Num;
    ZeroBits();
    FirstNumbers();
    SecondNumbers();
    Literals(0);
    TwoS0();
    RestS0();
    TwoS1();
    RestS1();
    RoundOfMachine(ZERO, S0, MAX_U64, 0xFFFF_FFFF, 0xFFFF_FFFF, Numbers(256), M0);
    var s := Round(ZERO, MAX_U64, Numbers(256));
    RoundOfMachine(s, S1, 0, 0, 0, Numbers(272), M1);
    InitBits();
    SameBits(INIT, Round(s, 0, Numbers(272)), S2);
  }

  lemma InitBits()
    ensures Is(INIT, S2)
  {
    hide Is12, Is16;
    InitA();
    InitB();
    InitC();
  }

  // ----- the test message -----

  const B1: Block := [0x64636261, 0x68676665, 0x6C6B6A69, 0x706F6E6D, 0x74737271, 0x78777675, 0x302D7A79, 0x34333231,
    0x38373635, 0x42412D39, 0x46454443, 0x4A494847, 0x4E4D4C4B, 0x5251504F, 0x56555453, 0x5A595857]

  const B2: Block := [0x3231302D, 0x36353433, 0x2D393837, 0x64636261, 0x68676665, 0x6C6B6A69, 0x706F6E6D, 0x74737271,
    0x78777675, 0x00807A79, 0x00000000, 0x00000000, 0x00000000, 0x00000000, 0x00000000, 0x00000000]

  const TEST_B_RESULT: seq<Byte> := [
    0xB4, 0x9F, 0x34, 0xBF, 0x51, 0x86, 0x4C, 0x30, 0x53, 0x3C, 0xC4, 0x6C, 0xC2, 0x54, 0x2B, 0xDE,
    0xC2, 0xF9, 0x6F, 0xD0, 0x6F, 0x5C, 0x53, 0x9A, 0xFF, 0x6E, 0xAD, 0x58, 0x83, 0xF7, 0x32, 0x7A]

  const TEST_B_WORDS: seq<Word> := [
    0xBF349FB4, 0x304C8651, 0x6CC43C53, 0xDE2B54C2, 0xD06FF9C2, 0x9A535C6F, 0x58AD6EFF, 0x7A32F783]

  const N1 := Sixteen(
    0x64636261, 0x68676665, 0x6C6B6A69, 0x706F6E6D, 0x74737271, 0x78777675, 0x302D7A79, 0x34333231,
    0x38373635, 0x42412D39, 0x46454443, 0x4A494847, 0x4E4D4C4B, 0x5251504F, 0x56555453, 0x5A595857)

  const N2 := Sixteen(
    0x3231302D, 0x36353433, 0x2D393837, 0x64636261, 0x68676665, 0x6C6B6A69, 0x706F6E6D, 0x74737271,
    0x78777675, 0x00807A79, 0x00000000, 0x00000000, 0x00000000, 0x00000000, 0x00000000, 0x00000000)

  const T0 := S2

  const T0Two := Registers(
    Twelve(
      0x4814BD95, 0xBCDD8C44, 0x7871F536, 0xAD059F2B, 0xC07120A5, 0x04EE925E, 0x300C7989, 0xC5E1B76B,
      0x01DA3B70, 0x7E8672A6, 0xACC3FAD9, 0xB8572BD6),
    Sixteen(
      0xF266D21B, 0xB63BAB98, 0x206805EE, 0xB84F2DF8, 0xAFABFA63, 0xA3F9E4B9, 0x2F348E45, 0xC223F47A,
      0x4FEF9BEC, 0xD688A86F, 0xA4928F38, 0x8577D0C4, 0xC1C03AA1, 0x84D3D770, 0xC1C3AB08, 0xCB5B80E3))

  const T0All := Registers(
    Twelve(
      0x8B5E482B, 0xEFEC43B6, 0xA1FE969E, 0x5C0B2ED9, 0xA3A90B23, 0x3C6E5B7C, 0xF85A8647, 0x9B0EEF10,
      0x6AD2B985, 0xA869C2D6, 0xBF63A720, 0x4D5430F0),
    Sixteen(
      0xACA70A95, 0x4E3FE92C, 0x860464EB, 0xE56A291F, 0x2BF64313, 0x57E0753A, 0x006875EB, 0x27B339D3,
      0xC389C304, 0x6E80F45C, 0x4E8067C9, 0x6E1EB166, 0x16AD3339, 0x5E3193C8, 0xC31B0ECE, 0x241CCEC8))

  const T1 := Chain(
    Twelve(
      0x6B6D2C5F, 0x25A4E4BD, 0xF0299A30, 0x20C7680E, 0xED31090B, 0x3E4611BB, 0xC0884C9C, 0x1AD2D57B,
      0x9CF9C58C, 0xB2D2110C, 0xAA4E3AB2, 0xD4287C37),
    Sixteen(
      0x4FA28DD0, 0x5BBBD855, 0x4707CF10, 0x506E2EE8, 0x50A8B63D, 0x2AB0426C, 0x2697E6EE, 0xB92E1202,
      0x507E672B, 0x1EA1A181, 0x2F460748, 0x399EE238, 0x6E493BDD, 0x948EBBA8, 0x642E4A02, 0x40EFC409),
    Sixteen(
      0xACA70A95, 0x4E3FE92C, 0x860464EB, 0xE56A291F, 0x2BF64313, 0x57E0753A, 0x006875EB, 0x27B339D3,
      0xC389C304, 0x6E80F45C, 0x4E8067C9, 0x6E1EB166, 0x16AD3339, 0x5E3193C8, 0xC31B0ECE, 0x241CCEC8))

  lemma TwoT0()
    ensures Pass(Pass(Opened(T0, 1, 0, N1), T0.c, N1), T0.c, N1) == T0Two
  {
  }

  lemma RestT0()
    ensures Pass(T0Two, T0.c, N1) == T0All
    ensures Closed(T0, N1, T0All) == T1
  {
  }

  const T1Two := Registers(
    Twelve(
      0x09F3FF4A, 0xCF3EAA2E, 0x1B2F4B4C, 0x4F8F64A2, 0xFDEC5D48, 0x7F32E3BF, 0x3312EE26, 0x73F81D45,
      0xE771CB44, 0x2A8DED27, 0xD7AE1BDD, 0xA87D95D5),
    Sixteen(
      0x2EDDE854, 0x6276F9BC, 0x49DED920, 0x6637625D, 0xBF78B943, 0x1525AC15, 0x93B25933, 0x4CAD5F54,
      0xEA206A74, 0x6A1873E8, 0xD4558BA3, 0xD93A4E8C, 0x7621EE51, 0x9EC2C1D0, 0x595F7E9A, 0xCA60B02C))

  const T1All := Registers(
    Twelve(
      0xD22C0DEA, 0xA7764ACD, 0xC57D3D58, 0x0AA68F74, 0xA26B8BA2, 0x47726CDB, 0x66B4B2AC, 0x505FB429,
      0x085C7159, 0x85E454FC, 0x0CD7F1DE, 0x568BADDB),
    Sixteen(
      0xD07BB00A, 0x7084EDBF, 0xE2E347DC, 0x176FBA27, 0x53228092, 0x72C2ED18, 0x1DE670C0, 0x6C03CE23,
      0x89D4A0B4, 0x6CBD74F4, 0x31E05A14, 0x1DD4D6CF, 0x1BE05204, 0x479E28A2, 0x4196F315, 0x3DB5327D))

  const T2 := Chain(
    Twelve(
      0x49D1B737, 0x96C0CBAE, 0xC9CF2F86, 0x542E7918, 0xD3A5BD5C, 0xE3997D87, 0x7B56056E, 0x254CF6C8,
      0x839885B1, 0x8C118E4C, 0x316AEF3C, 0x688F9A5D),
    Sixteen(
      0x7A75DA68, 0x180AB4F9, 0x58CB2CB4, 0x8106C6BE, 0xC38EDCAE, 0xEB750AD1, 0x8FF9077E, 0xB33FC762,
      0x4B124C8F, 0x6E0079E3, 0x4E8067C9, 0x6E1EB166, 0x16AD3339, 0x5E3193C8, 0xC31B0ECE, 0x241CCEC8),
    Sixteen(
      0xD07BB00A, 0x7084EDBF, 0xE2E347DC, 0x176FBA27, 0x53228092, 0x72C2ED18, 0x1DE670C0, 0x6C03CE23,
      0x89D4A0B4, 0x6CBD74F4, 0x31E05A14, 0x1DD4D6CF, 0x1BE05204, 0x479E28A2, 0x4196F315, 0x3DB5327D))

  lemma TwoT1()
    ensures Pass(Pass(Opened(T1, 2, 0, N2), T1.c, N2), T1.c, N2) == T1Two
  {
  }

  lemma RestT1()
    ensures Pass(T1Two, T1.c, N2) == T1All
    ensures Closed(T1, N2, T1All) == T2
  {
  }

  const T2Two := Registers(
    Twelve(
      0x235DF568, 0x17EB4789, 0xBF57EC17, 0x29851CE7, 0xF1D330FB, 0x55A76650, 0x3645D1D3, 0x79E5AA6A,
      0xA4480A6E, 0xC8A221B8, 0x2D30A72C, 0xB7B74535),
    Sixteen(
      0xF0F15233, 0x2E98CF7D, 0x0BC24E4B, 0x36898599, 0xCF06258E, 0xD680203C, 0xE82CDCD8, 0x1EC5FBAE,
      0xED2F0ABA, 0xEFC6B96F, 0x097C14B8, 0x23230613, 0xF226FE25, 0xF0E78E84, 0xEE4A80AE, 0xD9626E4F))

  const T2All := Registers(
    Twelve(
      0x553BD29F, 0xC35AB8A9, 0xA7ECA963, 0x47F2291E, 0xD1AF3761, 0x7068CAA6, 0xD7DFE602, 0x2DC59B1A,
      0x22D5EA34, 0x88C9C00A, 0x2FF881C6, 0xD21852D1),
    Sixteen(
      0x4DA49FC7, 0x489D5B3A, 0x07AACE5E, 0x95EF3C0E, 0x34C8667D, 0x91A5072F, 0x884AEF2D, 0x858621BD,
      0xF40EDDEB, 0x501A4786, 0x3AD8308D, 0x947C68C3, 0x3967E980, 0x96F922FC, 0x0C927F64, 0x9F2371B1))

  const T3 := Chain(
    Twelve(
      0xC8359612, 0x02D93B49, 0xD2D2ACDC, 0x8A52D4CF, 0x92D7F228, 0x1DDB9BF6, 0x27E535CD, 0x606FADCA,
      0xC41E494D, 0x81A13354, 0x57170C74, 0x637610BA),
    Sixteen(
      0x9E4A7FDD, 0x3A4FB98C, 0xB5AA0FA5, 0xB30C57C6, 0xEABB1A2D, 0x065782AF, 0xAD770253, 0xF7905BB2,
      0x115D2A3F, 0x6C3CFA7B, 0x31E05A14, 0x1DD4D6CF, 0x1BE05204, 0x479E28A2, 0x4196F315, 0x3DB5327D),
    Sixteen(
      0x4DA49FC7, 0x489D5B3A, 0x07AACE5E, 0x95EF3C0E, 0x34C8667D, 0x91A5072F, 0x884AEF2D, 0x858621BD,
      0xF40EDDEB, 0x501A4786, 0x3AD8308D, 0x947C68C3, 0x3967E980, 0x96F922FC, 0x0C927F64, 0x9F2371B1))

  lemma TwoT2()
    ensures Pass(Pass(Opened(T2, 2, 0, N2), T2.c, N2), T2.c, N2) == T2Two
  {
  }

  lemma RestT2()
    ensures Pass(T2Two, T2.c, N2) == T2All
    ensures Closed(T2, N2, T2All) == T3
  {
  }

  const T3Two := Registers(
    Twelve(
      0x17C31A6B, 0xD8076499, 0xB38EA0F6, 0x9885FDE2, 0x71C9F985, 0xC800394A, 0x8FBD7622, 0xAC657B69,
      0x2FB2355C, 0xD16C61B4, 0x0D746211, 0xA309E118),
    Sixteen(
      0xE89A0525, 0x77CE7CF7, 0x452129C5, 0x54340C45, 0xB44D8084, 0x535C06E1, 0xA82F9CA8, 0x117C0BDA,
      0xFC3B77A1, 0x2C2290B8, 0xE6BBDC66, 0x9A8DFCC6, 0xC5C3A1C1, 0xE0692224, 0x95CCDBBE, 0xB38134D4))

  const T3All := Registers(
    Twelve(
      0x1ADC4E68, 0x7A0843ED, 0xC62C5677, 0x43303AC9, 0xE39D6B8C, 0x6D6358A3, 0x6A5C56A4, 0xAC6F15A0,
      0xE3AF684E, 0x1E4B0104, 0x4DABDD43, 0xBCD9E6D6),
    Sixteen(
      0x0CC31791, 0x6F818D28, 0xDEE2F99A, 0xE1113036, 0x8DB8B09E, 0x234FB1D0, 0x698C90D9, 0x9E37D282,
      0xE4147B30, 0xCAD9862C, 0x58D41196, 0x668B13D2, 0x97D7D432, 0x2166BAB2, 0x99CD95C1, 0x24247080))

  const T4 := Chain(
    Twelve(
      0xE46B64EA, 0x35DD33B1, 0x3767DBDC, 0xDFB877B8, 0x9E363B08, 0xE3DF3CD2, 0x94B90093, 0x773D03B8,
      0x93A12EDC, 0x808A2EEC, 0xC6644EF4, 0x8C8F85F4),
    Sixteen(
      0x1B736F9A, 0x12682707, 0xDA719627, 0x318BD9AD, 0xCC610018, 0x25399CC6, 0x17DB80C0, 0x1112AF4C,
      0x7B976776, 0x4F99CD0D, 0x3AD8308D, 0x947C68C3, 0x3967E980, 0x96F922FC, 0x0C927F64, 0x9F2371B1),
    Sixteen(
      0x0CC31791, 0x6F818D28, 0xDEE2F99A, 0xE1113036, 0x8DB8B09E, 0x234FB1D0, 0x698C90D9, 0x9E37D282,
      0xE4147B30, 0xCAD9862C, 0x58D41196, 0x668B13D2, 0x97D7D432, 0x2166BAB2, 0x99CD95C1, 0x24247080))

  lemma TwoT3()
    ensures Pass(Pass(Opened(T3, 2, 0, N2), T3.c, N2), T3.c, N2) == T3Two
  {
  }

  lemma RestT3()
    ensures Pass(T3Two, T3.c, N2) == T3All
    ensures Closed(T3, N2, T3All) == T4
  {
  }

  const T4Two := Registers(
    Twelve(
      0x2D289F8C, 0x80B46CEB, 0xFCF20C9A, 0x61AC8102, 0xC9D3F423, 0xB47F8AE4, 0x359A3049, 0xBCC98A64,
      0xDDBC4864, 0xE9BD6633, 0x87ABF033, 0xCED5B802),
    Sixteen(
      0x66048AA2, 0x6E002C53, 0xA815E77E, 0x1B0568F6, 0x64F3EB60, 0x03E592DD, 0xAA451932, 0x3D0926F4,
      0x01C0D57C, 0x1A3A0B71, 0x238F2648, 0xD1A0CF1B, 0xDFE64F36, 0x5B77B146, 0x986B7613, 0x8E5D2AAF))

  const T4All := Registers(
    Twelve(
      0x9CEAF17C, 0x69EC9966, 0xD73B3761, 0xD13C3EBC, 0x434ACAB3, 0xFBC76F4C, 0xD4258F3C, 0x8295350A,
      0x905C9850, 0xD343C11C, 0x97847D27, 0x99775D23),
    Sixteen(
      0xC539CC9B, 0xCA52634F, 0x214754DE, 0x19A73AD2, 0xAAF2D843, 0x91D84323, 0x7C4EFAFB, 0x54D18CAB,
      0xBF349FB4, 0x304C8651, 0x6CC43C53, 0xDE2B54C2, 0xD06FF9C2, 0x9A535C6F, 0x58AD6EFF, 0x7A32F783))

  const T5 := Chain(
    Twelve(
      0x08ABA604, 0x9C4035C7, 0x8B73310B, 0xB3795EF0, 0xE6B83DEB, 0x7A57B2AB, 0x31D05460, 0x23D8D113,
      0x7630AEDA, 0xDCE8C11C, 0xA7146FD5, 0xF5A59553),
    Sixteen(
      0xDA91E764, 0x394C58F5, 0xB1A9C163, 0x7CADCDD5, 0x25514A39, 0xB6E44767, 0xF91D226C, 0x29C46011,
      0x6B9D04BB, 0xCA590BB3, 0x58D41196, 0x668B13D2, 0x97D7D432, 0x2166BAB2, 0x99CD95C1, 0x24247080),
    Sixteen(
      0xC539CC9B, 0xCA52634F, 0x214754DE, 0x19A73AD2, 0xAAF2D843, 0x91D84323, 0x7C4EFAFB, 0x54D18CAB,
      0xBF349FB4, 0x304C8651, 0x6CC43C53, 0xDE2B54C2, 0xD06FF9C2, 0x9A535C6F, 0x58AD6EFF, 0x7A32F783))

  lemma TwoT4()
    ensures Pass(Pass(Opened(T4, 2, 0, N2), T4.c, N2), T4.c, N2) == T4Two
  {
  }

  lemma RestT4()
    ensures Pass(T4Two, T4.c, N2) == T4All
    ensures Closed(T4, N2, T4All) == T5
  {
  }

  lemma FirstBlock()
    ensures Is16(B1, N1)
  {
  }

  lemma SecondBlock()
    ensures Is16(B2, N2)
  {
  }

  lemma Absorbed()
    ensures Is(Absorb([B1, B2]), T2)
  {
    hide Round, Pass, Opened, Closed, Is, Is16, Num;
    FirstBlock();
    SecondBlock();
    Literals(0);
    Two();
    InitBits();
    TwoT0();
    RestT0();
    TwoT1();
    RestT1();
    RoundOfMachine(INIT, T0, 1, 1, 0, B1, N1);
    var s := Round(INIT, 1, B1);
    RoundOfMachine(s, T1, 2, 2, 0, B2, N2);
    assert Absorb([]) == INIT;
    AbsorbOne([], B1);
    AbsorbOne([B1], B2);
    assert [] + [B1] == [B1] && [B1] + [B2] == [B1, B2];
  }

  lemma Two()
    ensures Num(2) == 2
  {
  }

  lemma Finished()
    ensures Is(Finish(Absorb([B1, B2]), 2, B2, 3), T5)
  {
    hide Round, Pass, Opened, Closed, Is, Is16, Num, Absorb;
    var s := Absorb([B1, B2]);
    var s1 := Round(s, 2, B2);
    var s2 := Round(s1, 2, B2);
    Absorbed();
    SecondBlock();
    Two();
    TwoT2();
    RestT2();
    TwoT3();
    RestT3();
    TwoT4();
    RestT4();
    Literals(0);
    RoundOfMachine(s, T2, 2, 2, 0, B2, N2);
    RoundOfMachine(s1, T3, 2, 2, 0, B2, N2);
    RoundOfMachine(s2, T4, 2, 2, 0, B2, N2);
    assert Finish(s, 2, B2, 0) == s && Finish(s, 2, B2, 1) == s1 && Finish(s, 2, B2, 2) == s2;
  }

  lemma UpperHalf(s: State)
    requires Is(s, T5)
    ensures s.c[8..] == TEST_B_WORDS
  {
    hide Is12;
  }

  lemma TestDigest()
    ensures Digest([B1, B2]) == TEST_B_WORDS
  {
    hide Absorb, Finish, Is;
    Finished();
    UpperHalf(Finish(Absorb([B1, B2]), 2, B2, 3));
  }
  lemma MessageWord()
    ensures BytesOfWord(0x0080_7A79) == [0x79, 0x7A, 0x80, 0] && BytesOfWord(0) == [0, 0, 0, 0]
  {
  }

  lemma Padding()
    ensures PadBytes(BytesOfWords(B1 + B2)[..102]) == BytesOfWords(B1 + B2)
  {
    hide BytesOfWord;
    var all := BytesOfWords(B1 + B2);
    MessageWord();
    assert (B1 + B2)[25] == 0x0080_7A79 && forall i | 26 <= i < 32 :: (B1 + B2)[i] == 0;
    assert all == all[..102] + [0x80] + ZeroBytes(25);
  }

  lemma LowResult()
    ensures BytesOfWord(0xBF349FB4) == [0xB4, 0x9F, 0x34, 0xBF]
    ensures BytesOfWord(0x304C8651) == [0x51, 0x86, 0x4C, 0x30]
    ensures BytesOfWord(0x6CC43C53) == [0x53, 0x3C, 0xC4, 0x6C]
    ensures BytesOfWord(0xDE2B54C2) == [0xC2, 0x54, 0x2B, 0xDE]
  {
  }

  lemma HighResult()
    ensures BytesOfWord(0xD06FF9C2) == [0xC2, 0xF9, 0x6F, 0xD0]
    ensures BytesOfWord(0x9A535C6F) == [0x6F, 0x5C, 0x53, 0x9A]
    ensures BytesOfWord(0x58AD6EFF) == [0xFF, 0x6E, 0xAD, 0x58]
    ensures BytesOfWord(0x7A32F783) == [0x83, 0xF7, 0x32, 0x7A]
  {
  }

  lemma DigestBytes()
    ensures BytesOfWords(TEST_B_WORDS) == TEST_B_RESULT
  {
    hide BytesOfWord;
    LowResult();
    HighResult();
  }

  lemma TwoBlocks(x: Block, y: Block)
    ensures Blocks(x + y) == [x, y]
  {
    assert (x + y)[16 * 0..16 * 0 + 16] == x && (x + y)[16 * 1..16 * 1 + 16] == y;
  }

  // The digest of the test message, 102 bytes of text.
  lemma TestMessage()
    ensures Shabal256Of(BytesOfWords(B1 + B2)[..102]) == TEST_B_RESULT
  {
    hide PadBytes, WordsOfBytes, Digest, BytesOfWords;
    Padding();
    WordsOfBytesOfWords(B1 + B2);
    TwoBlocks(B1, B2);
    TestDigest();
    DigestBytes();
  }
}
