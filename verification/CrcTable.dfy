/** The constant table of `crc16.cpp`, and what its entries are. */
module CrcTable {
  import opened BitRegister

  /** `crc16tab`, by rows of eight. */
  function TableRow(r: nat): (row: seq<bv16>)
    requires r < 32
    ensures |row| == 8
  {
    match r
    case 0 => [0x0000, 0x1021, 0x2042, 0x3063, 0x4084, 0x50a5, 0x60c6, 0x70e7]
    case 1 => [0x8108, 0x9129, 0xa14a, 0xb16b, 0xc18c, 0xd1ad, 0xe1ce, 0xf1ef]
    case 2 => [0x1231, 0x0210, 0x3273, 0x2252, 0x52b5, 0x4294, 0x72f7, 0x62d6]
    case 3 => [0x9339, 0x8318, 0xb37b, 0xa35a, 0xd3bd, 0xc39c, 0xf3ff, 0xe3de]
    case 4 => [0x2462, 0x3443, 0x0420, 0x1401, 0x64e6, 0x74c7, 0x44a4, 0x5485]
    case 5 => [0xa56a, 0xb54b, 0x8528, 0x9509, 0xe5ee, 0xf5cf, 0xc5ac, 0xd58d]
    case 6 => [0x3653, 0x2672, 0x1611, 0x0630, 0x76d7, 0x66f6, 0x5695, 0x46b4]
    case 7 => [0xb75b, 0xa77a, 0x9719, 0x8738, 0xf7df, 0xe7fe, 0xd79d, 0xc7bc]
    case 8 => [0x48c4, 0x58e5, 0x6886, 0x78a7, 0x0840, 0x1861, 0x2802, 0x3823]
    case 9 => [0xc9cc, 0xd9ed, 0xe98e, 0xf9af, 0x8948, 0x9969, 0xa90a, 0xb92b]
    case 10 => [0x5af5, 0x4ad4, 0x7ab7, 0x6a96, 0x1a71, 0x0a50, 0x3a33, 0x2a12]
    case 11 => [0xdbfd, 0xcbdc, 0xfbbf, 0xeb9e, 0x9b79, 0x8b58, 0xbb3b, 0xab1a]
    case 12 => [0x6ca6, 0x7c87, 0x4ce4, 0x5cc5, 0x2c22, 0x3c03, 0x0c60, 0x1c41]
    case 13 => [0xedae, 0xfd8f, 0xcdec, 0xddcd, 0xad2a, 0xbd0b, 0x8d68, 0x9d49]
    case 14 => [0x7e97, 0x6eb6, 0x5ed5, 0x4ef4, 0x3e13, 0x2e32, 0x1e51, 0x0e70]
    case 15 => [0xff9f, 0xefbe, 0xdfdd, 0xcffc, 0xbf1b, 0xaf3a, 0x9f59, 0x8f78]
    case 16 => [0x9188, 0x81a9, 0xb1ca, 0xa1eb, 0xd10c, 0xc12d, 0xf14e, 0xe16f]
    case 17 => [0x1080, 0x00a1, 0x30c2, 0x20e3, 0x5004, 0x4025, 0x7046, 0x6067]
    case 18 => [0x83b9, 0x9398, 0xa3fb, 0xb3da, 0xc33d, 0xd31c, 0xe37f, 0xf35e]
    case 19 => [0x02b1, 0x1290, 0x22f3, 0x32d2, 0x4235, 0x5214, 0x6277, 0x7256]
    case 20 => [0xb5ea, 0xa5cb, 0x95a8, 0x8589, 0xf56e, 0xe54f, 0xd52c, 0xc50d]
    case 21 => [0x34e2, 0x24c3, 0x14a0, 0x0481, 0x7466, 0x6447, 0x5424, 0x4405]
    case 22 => [0xa7db, 0xb7fa, 0x8799, 0x97b8, 0xe75f, 0xf77e, 0xc71d, 0xd73c]
    case 23 => [0x26d3, 0x36f2, 0x0691, 0x16b0, 0x6657, 0x7676, 0x4615, 0x5634]
    case 24 => [0xd94c, 0xc96d, 0xf90e, 0xe92f, 0x99c8, 0x89e9, 0xb98a, 0xa9ab]
    case 25 => [0x5844, 0x4865, 0x7806, 0x6827, 0x18c0, 0x08e1, 0x3882, 0x28a3]
    case 26 => [0xcb7d, 0xdb5c, 0xeb3f, 0xfb1e, 0x8bf9, 0x9bd8, 0xabbb, 0xbb9a]
    case 27 => [0x4a75, 0x5a54, 0x6a37, 0x7a16, 0x0af1, 0x1ad0, 0x2ab3, 0x3a92]
    case 28 => [0xfd2e, 0xed0f, 0xdd6c, 0xcd4d, 0xbdaa, 0xad8b, 0x9de8, 0x8dc9]
    case 29 => [0x7c26, 0x6c07, 0x5c64, 0x4c45, 0x3ca2, 0x2c83, 0x1ce0, 0x0cc1]
    case 30 => [0xef1f, 0xff3e, 0xcf5d, 0xdf7c, 0xaf9b, 0xbfba, 0x8fd9, 0x9ff8]
    case _ => [0x6e17, 0x7e36, 0x4e55, 0x5e74, 0x2e93, 0x3eb2, 0x0ed1, 0x1ef0]
  }

  function Table(x: bv16): bv16
    requires x < 0x100
  {
    TableRow((x >> 3) as nat)[(x & 7) as nat]
  }

  predicate RowDivides(row: seq<bv16>, first: bv16) {
    && |row| == 8
    && row[0] == Shift8(first) && row[1] == Shift8(first + 0x100) && row[2] == Shift8(first + 0x200)
    && row[3] == Shift8(first + 0x300) && row[4] == Shift8(first + 0x400) && row[5] == Shift8(first + 0x500)
    && row[6] == Shift8(first + 0x600) && row[7] == Shift8(first + 0x700)
  }

  lemma FirstRows(r: bv16)
    requires 0 <= r < 8
    ensures RowDivides(TableRow(r as nat), r << 11)
  {
    if r == 0 {
    } else if r == 1 {
    } else if r == 2 {
    } else if r == 3 {
    } else if r == 4 {
    } else if r == 5 {
    } else if r == 6 {
    } else {
      assert r == 7;
    }
  }

  lemma SecondRows(r: bv16)
    requires 8 <= r < 16
    ensures RowDivides(TableRow(r as nat), r << 11)
  {
    if r == 8 {
    } else if r == 9 {
    } else if r == 10 {
    } else if r == 11 {
    } else if r == 12 {
    } else if r == 13 {
    } else if r == 14 {
    } else {
      assert r == 15;
    }
  }

  lemma ThirdRows(r: bv16)
    requires 16 <= r < 24
    ensures RowDivides(TableRow(r as nat), r << 11)
  {
    if r == 16 {
    } else if r == 17 {
    } else if r == 18 {
    } else if r == 19 {
    } else if r == 20 {
    } else if r == 21 {
    } else if r == 22 {
    } else {
      assert r == 23;
    }
  }

  lemma LastRows(r: bv16)
    requires 24 <= r < 32
    ensures RowDivides(TableRow(r as nat), r << 11)
  {
    if r == 24 {
    } else if r == 25 {
    } else if r == 26 {
    } else if r == 27 {
    } else if r == 28 {
    } else if r == 29 {
    } else if r == 30 {
    } else {
      assert r == 31;
    }
  }

  lemma EveryRow(r: bv16)
    requires r < 32
    ensures RowDivides(TableRow(r as nat), r << 11)
  {
    hide RowDivides, TableRow;
    if r < 8 {
      FirstRows(r);
    } else if r < 16 {
      SecondRows(r);
    } else if r < 24 {
      ThirdRows(r);
    } else {
      LastRows(r);
    }
  }

  /** Every entry is what eight shifts make of its index. */
  lemma TableDivides(x: bv16)
    requires x < 0x100
    ensures Table(x) == Shift8(Up(x))
  {
    EveryRow(x >> 3);
    hide TableRow, Shift8;
    var k := x & 7;
    assert x << 8 == ((x >> 3) << 11) + (k << 8);
    if k == 0 {
    } else if k == 1 {
    } else if k == 2 {
    } else if k == 3 {
    } else if k == 4 {
    } else if k == 5 {
    } else if k == 6 {
    } else {
      assert k == 7;
    }
  }
}
