/** The lookup table of odps/crc.py, and the proof that it tabulates eight shifts of the
    bit-serial CRC-32C register for every byte. */
module CrcTable {

  import opened CrcRegister

  /** The entry of a row of four that the low two bits of the index select. */
  function Entry(i: bv8, a: bv32, b: bv32, c: bv32, d: bv32): bv32
  {
    if i & 3 == 0 then a else if i & 3 == 1 then b else if i & 3 == 2 then c else d
  }

  /** A quarter of the table, row by row as the source lays it out. */
  function FirstRows(i: bv8): bv32
  {
    if i < 0x04 then Entry(i, 0x00000000, 0xF26B8303, 0xE13B70F7, 0x1350F3F4)
    else if i < 0x08 then Entry(i, 0xC79A971F, 0x35F1141C, 0x26A1E7E8, 0xD4CA64EB)
    else if i < 0x0C then Entry(i, 0x8AD958CF, 0x78B2DBCC, 0x6BE22838, 0x9989AB3B)
    else if i < 0x10 then Entry(i, 0x4D43CFD0, 0xBF284CD3, 0xAC78BF27, 0x5E133C24)
    else if i < 0x14 then Entry(i, 0x105EC76F, 0xE235446C, 0xF165B798, 0x030E349B)
    else if i < 0x18 then Entry(i, 0xD7C45070, 0x25AFD373, 0x36FF2087, 0xC494A384)
    else if i < 0x1C then Entry(i, 0x9A879FA0, 0x68EC1CA3, 0x7BBCEF57, 0x89D76C54)
    else if i < 0x20 then Entry(i, 0x5D1D08BF, 0xAF768BBC, 0xBC267848, 0x4E4DFB4B)
    else if i < 0x24 then Entry(i, 0x20BD8EDE, 0xD2D60DDD, 0xC186FE29, 0x33ED7D2A)
    else if i < 0x28 then Entry(i, 0xE72719C1, 0x154C9AC2, 0x061C6936, 0xF477EA35)
    else if i < 0x2C then Entry(i, 0xAA64D611, 0x580F5512, 0x4B5FA6E6, 0xB93425E5)
    else if i < 0x30 then Entry(i, 0x6DFE410E, 0x9F95C20D, 0x8CC531F9, 0x7EAEB2FA)
    else if i < 0x34 then Entry(i, 0x30E349B1, 0xC288CAB2, 0xD1D83946, 0x23B3BA45)
    else if i < 0x38 then Entry(i, 0xF779DEAE, 0x05125DAD, 0x1642AE59, 0xE4292D5A)
    else if i < 0x3C then Entry(i, 0xBA3A117E, 0x4851927D, 0x5B016189, 0xA96AE28A)
    else Entry(i, 0x7DA08661, 0x8FCB0562, 0x9C9BF696, 0x6EF07595)
  }

  function SecondRows(i: bv8): bv32
  {
    if i < 0x44 then Entry(i, 0x417B1DBC, 0xB3109EBF, 0xA0406D4B, 0x522BEE48)
    else if i < 0x48 then Entry(i, 0x86E18AA3, 0x748A09A0, 0x67DAFA54, 0x95B17957)
    else if i < 0x4C then Entry(i, 0xCBA24573, 0x39C9C670, 0x2A993584, 0xD8F2B687)
    else if i < 0x50 then Entry(i, 0x0C38D26C, 0xFE53516F, 0xED03A29B, 0x1F682198)
    else if i < 0x54 then Entry(i, 0x5125DAD3, 0xA34E59D0, 0xB01EAA24, 0x42752927)
    else if i < 0x58 then Entry(i, 0x96BF4DCC, 0x64D4CECF, 0x77843D3B, 0x85EFBE38)
    else if i < 0x5C then Entry(i, 0xDBFC821C, 0x2997011F, 0x3AC7F2EB, 0xC8AC71E8)
    else if i < 0x60 then Entry(i, 0x1C661503, 0xEE0D9600, 0xFD5D65F4, 0x0F36E6F7)
    else if i < 0x64 then Entry(i, 0x61C69362, 0x93AD1061, 0x80FDE395, 0x72966096)
    else if i < 0x68 then Entry(i, 0xA65C047D, 0x5437877E, 0x4767748A, 0xB50CF789)
    else if i < 0x6C then Entry(i, 0xEB1FCBAD, 0x197448AE, 0x0A24BB5A, 0xF84F3859)
    else if i < 0x70 then Entry(i, 0x2C855CB2, 0xDEEEDFB1, 0xCDBE2C45, 0x3FD5AF46)
    else if i < 0x74 then Entry(i, 0x7198540D, 0x83F3D70E, 0x90A324FA, 0x62C8A7F9)
    else if i < 0x78 then Entry(i, 0xB602C312, 0x44694011, 0x5739B3E5, 0xA55230E6)
    else if i < 0x7C then Entry(i, 0xFB410CC2, 0x092A8FC1, 0x1A7A7C35, 0xE811FF36)
    else Entry(i, 0x3CDB9BDD, 0xCEB018DE, 0xDDE0EB2A, 0x2F8B6829)
  }

  function ThirdRows(i: bv8): bv32
  {
    if i < 0x84 then Entry(i, 0x82F63B78, 0x709DB87B, 0x63CD4B8F, 0x91A6C88C)
    else if i < 0x88 then Entry(i, 0x456CAC67, 0xB7072F64, 0xA457DC90, 0x563C5F93)
    else if i < 0x8C then Entry(i, 0x082F63B7, 0xFA44E0B4, 0xE9141340, 0x1B7F9043)
    else if i < 0x90 then Entry(i, 0xCFB5F4A8, 0x3DDE77AB, 0x2E8E845F, 0xDCE5075C)
    else if i < 0x94 then Entry(i, 0x92A8FC17, 0x60C37F14, 0x73938CE0, 0x81F80FE3)
    else if i < 0x98 then Entry(i, 0x55326B08, 0xA759E80B, 0xB4091BFF, 0x466298FC)
    else if i < 0x9C then Entry(i, 0x1871A4D8, 0xEA1A27DB, 0xF94AD42F, 0x0B21572C)
    else if i < 0xA0 then Entry(i, 0xDFEB33C7, 0x2D80B0C4, 0x3ED04330, 0xCCBBC033)
    else if i < 0xA4 then Entry(i, 0xA24BB5A6, 0x502036A5, 0x4370C551, 0xB11B4652)
    else if i < 0xA8 then Entry(i, 0x65D122B9, 0x97BAA1BA, 0x84EA524E, 0x7681D14D)
    else if i < 0xAC then Entry(i, 0x2892ED69, 0xDAF96E6A, 0xC9A99D9E, 0x3BC21E9D)
    else if i < 0xB0 then Entry(i, 0xEF087A76, 0x1D63F975, 0x0E330A81, 0xFC588982)
    else if i < 0xB4 then Entry(i, 0xB21572C9, 0x407EF1CA, 0x532E023E, 0xA145813D)
    else if i < 0xB8 then Entry(i, 0x758FE5D6, 0x87E466D5, 0x94B49521, 0x66DF1622)
    else if i < 0xBC then Entry(i, 0x38CC2A06, 0xCAA7A905, 0xD9F75AF1, 0x2B9CD9F2)
    else Entry(i, 0xFF56BD19, 0x0D3D3E1A, 0x1E6DCDEE, 0xEC064EED)
  }

  function LastRows(i: bv8): bv32
  {
    if i < 0xC4 then Entry(i, 0xC38D26C4, 0x31E6A5C7, 0x22B65633, 0xD0DDD530)
    else if i < 0xC8 then Entry(i, 0x0417B1DB, 0xF67C32D8, 0xE52CC12C, 0x1747422F)
    else if i < 0xCC then Entry(i, 0x49547E0B, 0xBB3FFD08, 0xA86F0EFC, 0x5A048DFF)
    else if i < 0xD0 then Entry(i, 0x8ECEE914, 0x7CA56A17, 0x6FF599E3, 0x9D9E1AE0)
    else if i < 0xD4 then Entry(i, 0xD3D3E1AB, 0x21B862A8, 0x32E8915C, 0xC083125F)
    else if i < 0xD8 then Entry(i, 0x144976B4, 0xE622F5B7, 0xF5720643, 0x07198540)
    else if i < 0xDC then Entry(i, 0x590AB964, 0xAB613A67, 0xB831C993, 0x4A5A4A90)
    else if i < 0xE0 then Entry(i, 0x9E902E7B, 0x6CFBAD78, 0x7FAB5E8C, 0x8DC0DD8F)
    else if i < 0xE4 then Entry(i, 0xE330A81A, 0x115B2B19, 0x020BD8ED, 0xF0605BEE)
    else if i < 0xE8 then Entry(i, 0x24AA3F05, 0xD6C1BC06, 0xC5914FF2, 0x37FACCF1)
    else if i < 0xEC then Entry(i, 0x69E9F0D5, 0x9B8273D6, 0x88D28022, 0x7AB90321)
    else if i < 0xF0 then Entry(i, 0xAE7367CA, 0x5C18E4C9, 0x4F48173D, 0xBD23943E)
    else if i < 0xF4 then Entry(i, 0xF36E6F75, 0x0105EC76, 0x12551F82, 0xE03E9C81)
    else if i < 0xF8 then Entry(i, 0x34F4F86A, 0xC69F7B69, 0xD5CF889D, 0x27A40B9E)
    else if i < 0xFC then Entry(i, 0x79B737BA, 0x8BDCB4B9, 0x988C474D, 0x6AE7C44E)
    else Entry(i, 0xBE2DA0A5, 0x4C4623A6, 0x5F16D052, 0xAD7D5351)
  }

  function Table(i: bv8): bv32
  {
    if i < 0x40 then FirstRows(i)
    else if i < 0x80 then SecondRows(i)
    else if i < 0xC0 then ThirdRows(i)
    else LastRows(i)
  }

  function Pick(i: bv8, bit: bv8, entry: bv32): bv32
  {
    if i & bit == 0 then 0 else entry
  }

  function CombinedLow(i: bv8): bv32
  {
    Pick(i, 0x01, 0xF26B8303) ^ Pick(i, 0x02, 0xE13B70F7) ^ Pick(i, 0x04, 0xC79A971F) ^ Pick(i, 0x08, 0x8AD958CF)
  }

  function CombinedHigh(i: bv8): bv32
  {
    Pick(i, 0x10, 0x105EC76F) ^ Pick(i, 0x20, 0x20BD8EDE) ^ Pick(i, 0x40, 0x417B1DBC) ^ Pick(i, 0x80, 0x82F63B78)
  }

  /** The exclusive or of the entries of the powers of two in the index. */
  function Combined(i: bv8): bv32
  {
    Xor(CombinedLow(i), CombinedHigh(i))
  }

  lemma LowBits(i: bv8)
    ensures Shift8((i & 0xF) as bv32) == CombinedLow(i)
  {
  }

  lemma HighBits(i: bv8)
    ensures Shift8((i & 0xF0) as bv32) == CombinedHigh(i)
  {
  }

  lemma BothParts(i: bv8)
    ensures i as bv32 == Xor((i & 0xF) as bv32, (i & 0xF0) as bv32)
  {
  }

  lemma ShiftsCombine(i: bv8)
    ensures Shift8(i as bv32) == Combined(i)
  {
    hide Shift8, CombinedLow, CombinedHigh, Xor;
    BothParts(i);
    LowBits(i);
    HighBits(i);
    Shift8Linear((i & 0xF) as bv32, (i & 0xF0) as bv32);
  }

  lemma FirstQuarter(i: bv8)
    requires i < 0x40
    ensures FirstRows(i) == Combined(i)
  {
  }

  lemma SecondQuarter(i: bv8)
    requires 0x40 <= i < 0x80
    ensures SecondRows(i) == Combined(i)
  {
  }

  lemma ThirdQuarter(i: bv8)
    requires 0x80 <= i < 0xC0
    ensures ThirdRows(i) == Combined(i)
  {
  }

  lemma LastQuarter(i: bv8)
    requires 0xC0 <= i
    ensures LastRows(i) == Combined(i)
  {
  }

  /** Every entry is eight shifts of its index. */
  lemma TableIsShifts(i: bv8)
    ensures Table(i) == Shift8(i as bv32)
  {
    hide FirstRows, SecondRows, ThirdRows, LastRows, Shift8, Combined;
    ShiftsCombine(i);
    if i < 0x40 {
      FirstQuarter(i);
    } else if i < 0x80 {
      SecondQuarter(i);
    } else if i < 0xC0 {
      ThirdQuarter(i);
    } else {
      LastQuarter(i);
    }
  }
}
