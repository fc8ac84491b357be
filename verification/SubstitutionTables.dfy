// The substitution tables of src/libhashkit/rijndael.cc.  Te4 holds S[x] four times over and
// Td4 holds Si[x] four times over; the byte they repeat is what is tabulated here, one function
// per row of sixteen entries.  The other eight tables of the source are products of these two
// (see module Rijndael).
module SubstitutionTables {

  function SRow0(lo: bv8): bv8 {
    if lo == 0x0 then 0x63 else if lo == 0x1 then 0x7c else if lo == 0x2 then 0x77 else if lo == 0x3 then 0x7b else
    if lo == 0x4 then 0xf2 else if lo == 0x5 then 0x6b else if lo == 0x6 then 0x6f else if lo == 0x7 then 0xc5 else
    if lo == 0x8 then 0x30 else if lo == 0x9 then 0x01 else if lo == 0xa then 0x67 else if lo == 0xb then 0x2b else
    if lo == 0xc then 0xfe else if lo == 0xd then 0xd7 else if lo == 0xe then 0xab else 0x76
  }

  function SRow1(lo: bv8): bv8 {
    if lo == 0x0 then 0xca else if lo == 0x1 then 0x82 else if lo == 0x2 then 0xc9 else if lo == 0x3 then 0x7d else
    if lo == 0x4 then 0xfa else if lo == 0x5 then 0x59 else if lo == 0x6 then 0x47 else if lo == 0x7 then 0xf0 else
    if lo == 0x8 then 0xad else if lo == 0x9 then 0xd4 else if lo == 0xa then 0xa2 else if lo == 0xb then 0xaf else
    if lo == 0xc then 0x9c else if lo == 0xd then 0xa4 else if lo == 0xe then 0x72 else 0xc0
  }

  function SRow2(lo: bv8): bv8 {
    if lo == 0x0 then 0xb7 else if lo == 0x1 then 0xfd else if lo == 0x2 then 0x93 else if lo == 0x3 then 0x26 else
    if lo == 0x4 then 0x36 else if lo == 0x5 then 0x3f else if lo == 0x6 then 0xf7 else if lo == 0x7 then 0xcc else
    if lo == 0x8 then 0x34 else if lo == 0x9 then 0xa5 else if lo == 0xa then 0xe5 else if lo == 0xb then 0xf1 else
    if lo == 0xc then 0x71 else if lo == 0xd then 0xd8 else if lo == 0xe then 0x31 else 0x15
  }

  function SRow3(lo: bv8): bv8 {
    if lo == 0x0 then 0x04 else if lo == 0x1 then 0xc7 else if lo == 0x2 then 0x23 else if lo == 0x3 then 0xc3 else
    if lo == 0x4 then 0x18 else if lo == 0x5 then 0x96 else if lo == 0x6 then 0x05 else if lo == 0x7 then 0x9a else
    if lo == 0x8 then 0x07 else if lo == 0x9 then 0x12 else if lo == 0xa then 0x80 else if lo == 0xb then 0xe2 else
    if lo == 0xc then 0xeb else if lo == 0xd then 0x27 else if lo == 0xe then 0xb2 else 0x75
  }

  function SRow4(lo: bv8): bv8 {
    if lo == 0x0 then 0x09 else if lo == 0x1 then 0x83 else if lo == 0x2 then 0x2c else if lo == 0x3 then 0x1a else
    if lo == 0x4 then 0x1b else if lo == 0x5 then 0x6e else if lo == 0x6 then 0x5a else if lo == 0x7 then 0xa0 else
    if lo == 0x8 then 0x52 else if lo == 0x9 then 0x3b else if lo == 0xa then 0xd6 else if lo == 0xb then 0xb3 else
    if lo == 0xc then 0x29 else if lo == 0xd then 0xe3 else if lo == 0xe then 0x2f else 0x84
  }

  function SRow5(lo: bv8): bv8 {
    if lo == 0x0 then 0x53 else if lo == 0x1 then 0xd1 else if lo == 0x2 then 0x00 else if lo == 0x3 then 0xed else
    if lo == 0x4 then 0x20 else if lo == 0x5 then 0xfc else if lo == 0x6 then 0xb1 else if lo == 0x7 then 0x5b else
    if lo == 0x8 then 0x6a else if lo == 0x9 then 0xcb else if lo == 0xa then 0xbe else if lo == 0xb then 0x39 else
    if lo == 0xc then 0x4a else if lo == 0xd then 0x4c else if lo == 0xe then 0x58 else 0xcf
  }

  function SRow6(lo: bv8): bv8 {
    if lo == 0x0 then 0xd0 else if lo == 0x1 then 0xef else if lo == 0x2 then 0xaa else if lo == 0x3 then 0xfb else
    if lo == 0x4 then 0x43 else if lo == 0x5 then 0x4d else if lo == 0x6 then 0x33 else if lo == 0x7 then 0x85 else
    if lo == 0x8 then 0x45 else if lo == 0x9 then 0xf9 else if lo == 0xa then 0x02 else if lo == 0xb then 0x7f else
    if lo == 0xc then 0x50 else if lo == 0xd then 0x3c else if lo == 0xe then 0x9f else 0xa8
  }

  function SRow7(lo: bv8): bv8 {
    if lo == 0x0 then 0x51 else if lo == 0x1 then 0xa3 else if lo == 0x2 then 0x40 else if lo == 0x3 then 0x8f else
    if lo == 0x4 then 0x92 else if lo == 0x5 then 0x9d else if lo == 0x6 then 0x38 else if lo == 0x7 then 0xf5 else
    if lo == 0x8 then 0xbc else if lo == 0x9 then 0xb6 else if lo == 0xa then 0xda else if lo == 0xb then 0x21 else
    if lo == 0xc then 0x10 else if lo == 0xd then 0xff else if lo == 0xe then 0xf3 else 0xd2
  }

  function SRow8(lo: bv8): bv8 {
    if lo == 0x0 then 0xcd else if lo == 0x1 then 0x0c else if lo == 0x2 then 0x13 else if lo == 0x3 then 0xec else
    if lo == 0x4 then 0x5f else if lo == 0x5 then 0x97 else if lo == 0x6 then 0x44 else if lo == 0x7 then 0x17 else
    if lo == 0x8 then 0xc4 else if lo == 0x9 then 0xa7 else if lo == 0xa then 0x7e else if lo == 0xb then 0x3d else
    if lo == 0xc then 0x64 else if lo == 0xd then 0x5d else if lo == 0xe then 0x19 else 0x73
  }

  function SRow9(lo: bv8): bv8 {
    if lo == 0x0 then 0x60 else if lo == 0x1 then 0x81 else if lo == 0x2 then 0x4f else if lo == 0x3 then 0xdc else
    if lo == 0x4 then 0x22 else if lo == 0x5 then 0x2a else if lo == 0x6 then 0x90 else if lo == 0x7 then 0x88 else
    if lo == 0x8 then 0x46 else if lo == 0x9 then 0xee else if lo == 0xa then 0xb8 else if lo == 0xb then 0x14 else
    if lo == 0xc then 0xde else if lo == 0xd then 0x5e else if lo == 0xe then 0x0b else 0xdb
  }

  function SRowA(lo: bv8): bv8 {
    if lo == 0x0 then 0xe0 else if lo == 0x1 then 0x32 else if lo == 0x2 then 0x3a else if lo == 0x3 then 0x0a else
    if lo == 0x4 then 0x49 else if lo == 0x5 then 0x06 else if lo == 0x6 then 0x24 else if lo == 0x7 then 0x5c else
    if lo == 0x8 then 0xc2 else if lo == 0x9 then 0xd3 else if lo == 0xa then 0xac else if lo == 0xb then 0x62 else
    if lo == 0xc then 0x91 else if lo == 0xd then 0x95 else if lo == 0xe then 0xe4 else 0x79
  }

  function SRowB(lo: bv8): bv8 {
    if lo == 0x0 then 0xe7 else if lo == 0x1 then 0xc8 else if lo == 0x2 then 0x37 else if lo == 0x3 then 0x6d else
    if lo == 0x4 then 0x8d else if lo == 0x5 then 0xd5 else if lo == 0x6 then 0x4e else if lo == 0x7 then 0xa9 else
    if lo == 0x8 then 0x6c else if lo == 0x9 then 0x56 else if lo == 0xa then 0xf4 else if lo == 0xb then 0xea else
    if lo == 0xc then 0x65 else if lo == 0xd then 0x7a else if lo == 0xe then 0xae else 0x08
  }

  function SRowC(lo: bv8): bv8 {
    if lo == 0x0 then 0xba else if lo == 0x1 then 0x78 else if lo == 0x2 then 0x25 else if lo == 0x3 then 0x2e else
    if lo == 0x4 then 0x1c else if lo == 0x5 then 0xa6 else if lo == 0x6 then 0xb4 else if lo == 0x7 then 0xc6 else
    if lo == 0x8 then 0xe8 else if lo == 0x9 then 0xdd else if lo == 0xa then 0x74 else if lo == 0xb then 0x1f else
    if lo == 0xc then 0x4b else if lo == 0xd then 0xbd else if lo == 0xe then 0x8b else 0x8a
  }

  function SRowD(lo: bv8): bv8 {
    if lo == 0x0 then 0x70 else if lo == 0x1 then 0x3e else if lo == 0x2 then 0xb5 else if lo == 0x3 then 0x66 else
    if lo == 0x4 then 0x48 else if lo == 0x5 then 0x03 else if lo == 0x6 then 0xf6 else if lo == 0x7 then 0x0e else
    if lo == 0x8 then 0x61 else if lo == 0x9 then 0x35 else if lo == 0xa then 0x57 else if lo == 0xb then 0xb9 else
    if lo == 0xc then 0x86 else if lo == 0xd then 0xc1 else if lo == 0xe then 0x1d else 0x9e
  }

  function SRowE(lo: bv8): bv8 {
    if lo == 0x0 then 0xe1 else if lo == 0x1 then 0xf8 else if lo == 0x2 then 0x98 else if lo == 0x3 then 0x11 else
    if lo == 0x4 then 0x69 else if lo == 0x5 then 0xd9 else if lo == 0x6 then 0x8e else if lo == 0x7 then 0x94 else
    if lo == 0x8 then 0x9b else if lo == 0x9 then 0x1e else if lo == 0xa then 0x87 else if lo == 0xb then 0xe9 else
    if lo == 0xc then 0xce else if lo == 0xd then 0x55 else if lo == 0xe then 0x28 else 0xdf
  }

  function SRowF(lo: bv8): bv8 {
    if lo == 0x0 then 0x8c else if lo == 0x1 then 0xa1 else if lo == 0x2 then 0x89 else if lo == 0x3 then 0x0d else
    if lo == 0x4 then 0xbf else if lo == 0x5 then 0xe6 else if lo == 0x6 then 0x42 else if lo == 0x7 then 0x68 else
    if lo == 0x8 then 0x41 else if lo == 0x9 then 0x99 else if lo == 0xa then 0x2d else if lo == 0xb then 0x0f else
    if lo == 0xc then 0xb0 else if lo == 0xd then 0x54 else if lo == 0xe then 0xbb else 0x16
  }

  // The byte repeated in Te4[x].
  function S(x: bv8): bv8 {
    var hi, lo := x >> 4, x & 0x0f;
    if hi == 0x0 then SRow0(lo) else
    if hi == 0x1 then SRow1(lo) else
    if hi == 0x2 then SRow2(lo) else
    if hi == 0x3 then SRow3(lo) else
    if hi == 0x4 then SRow4(lo) else
    if hi == 0x5 then SRow5(lo) else
    if hi == 0x6 then SRow6(lo) else
    if hi == 0x7 then SRow7(lo) else
    if hi == 0x8 then SRow8(lo) else
    if hi == 0x9 then SRow9(lo) else
    if hi == 0xa then SRowA(lo) else
    if hi == 0xb then SRowB(lo) else
    if hi == 0xc then SRowC(lo) else
    if hi == 0xd then SRowD(lo) else
    if hi == 0xe then SRowE(lo) else
    SRowF(lo)
  }

  function SiRow0(lo: bv8): bv8 {
    if lo == 0x0 then 0x52 else if lo == 0x1 then 0x09 else if lo == 0x2 then 0x6a else if lo == 0x3 then 0xd5 else
    if lo == 0x4 then 0x30 else if lo == 0x5 then 0x36 else if lo == 0x6 then 0xa5 else if lo == 0x7 then 0x38 else
    if lo == 0x8 then 0xbf else if lo == 0x9 then 0x40 else if lo == 0xa then 0xa3 else if lo == 0xb then 0x9e else
    if lo == 0xc then 0x81 else if lo == 0xd then 0xf3 else if lo == 0xe then 0xd7 else 0xfb
  }

  function SiRow1(lo: bv8): bv8 {
    if lo == 0x0 then 0x7c else if lo == 0x1 then 0xe3 else if lo == 0x2 then 0x39 else if lo == 0x3 then 0x82 else
    if lo == 0x4 then 0x9b else if lo == 0x5 then 0x2f else if lo == 0x6 then 0xff else if lo == 0x7 then 0x87 else
    if lo == 0x8 then 0x34 else if lo == 0x9 then 0x8e else if lo == 0xa then 0x43 else if lo == 0xb then 0x44 else
    if lo == 0xc then 0xc4 else if lo == 0xd then 0xde else if lo == 0xe then 0xe9 else 0xcb
  }

  function SiRow2(lo: bv8): bv8 {
    if lo == 0x0 then 0x54 else if lo == 0x1 then 0x7b else if lo == 0x2 then 0x94 else if lo == 0x3 then 0x32 else
    if lo == 0x4 then 0xa6 else if lo == 0x5 then 0xc2 else if lo == 0x6 then 0x23 else if lo == 0x7 then 0x3d else
    if lo == 0x8 then 0xee else if lo == 0x9 then 0x4c else if lo == 0xa then 0x95 else if lo == 0xb then 0x0b else
    if lo == 0xc then 0x42 else if lo == 0xd then 0xfa else if lo == 0xe then 0xc3 else 0x4e
  }

  function SiRow3(lo: bv8): bv8 {
    if lo == 0x0 then 0x08 else if lo == 0x1 then 0x2e else if lo == 0x2 then 0xa1 else if lo == 0x3 then 0x66 else
    if lo == 0x4 then 0x28 else if lo == 0x5 then 0xd9 else if lo == 0x6 then 0x24 else if lo == 0x7 then 0xb2 else
    if lo == 0x8 then 0x76 else if lo == 0x9 then 0x5b else if lo == 0xa then 0xa2 else if lo == 0xb then 0x49 else
    if lo == 0xc then 0x6d else if lo == 0xd then 0x8b else if lo == 0xe then 0xd1 else 0x25
  }

  function SiRow4(lo: bv8): bv8 {
    if lo == 0x0 then 0x72 else if lo == 0x1 then 0xf8 else if lo == 0x2 then 0xf6 else if lo == 0x3 then 0x64 else
    if lo == 0x4 then 0x86 else if lo == 0x5 then 0x68 else if lo == 0x6 then 0x98 else if lo == 0x7 then 0x16 else
    if lo == 0x8 then 0xd4 else if lo == 0x9 then 0xa4 else if lo == 0xa then 0x5c else if lo == 0xb then 0xcc else
    if lo == 0xc then 0x5d else if lo == 0xd then 0x65 else if lo == 0xe then 0xb6 else 0x92
  }

  function SiRow5(lo: bv8): bv8 {
    if lo == 0x0 then 0x6c else if lo == 0x1 then 0x70 else if lo == 0x2 then 0x48 else if lo == 0x3 then 0x50 else
    if lo == 0x4 then 0xfd else if lo == 0x5 then 0xed else if lo == 0x6 then 0xb9 else if lo == 0x7 then 0xda else
    if lo == 0x8 then 0x5e else if lo == 0x9 then 0x15 else if lo == 0xa then 0x46 else if lo == 0xb then 0x57 else
    if lo == 0xc then 0xa7 else if lo == 0xd then 0x8d else if lo == 0xe then 0x9d else 0x84
  }

  function SiRow6(lo: bv8): bv8 {
    if lo == 0x0 then 0x90 else if lo == 0x1 then 0xd8 else if lo == 0x2 then 0xab else if lo == 0x3 then 0x00 else
    if lo == 0x4 then 0x8c else if lo == 0x5 then 0xbc else if lo == 0x6 then 0xd3 else if lo == 0x7 then 0x0a else
    if lo == 0x8 then 0xf7 else if lo == 0x9 then 0xe4 else if lo == 0xa then 0x58 else if lo == 0xb then 0x05 else
    if lo == 0xc then 0xb8 else if lo == 0xd then 0xb3 else if lo == 0xe then 0x45 else 0x06
  }

  function SiRow7(lo: bv8): bv8 {
    if lo == 0x0 then 0xd0 else if lo == 0x1 then 0x2c else if lo == 0x2 then 0x1e else if lo == 0x3 then 0x8f else
    if lo == 0x4 then 0xca else if lo == 0x5 then 0x3f else if lo == 0x6 then 0x0f else if lo == 0x7 then 0x02 else
    if lo == 0x8 then 0xc1 else if lo == 0x9 then 0xaf else if lo == 0xa then 0xbd else if lo == 0xb then 0x03 else
    if lo == 0xc then 0x01 else if lo == 0xd then 0x13 else if lo == 0xe then 0x8a else 0x6b
  }

  function SiRow8(lo: bv8): bv8 {
    if lo == 0x0 then 0x3a else if lo == 0x1 then 0x91 else if lo == 0x2 then 0x11 else if lo == 0x3 then 0x41 else
    if lo == 0x4 then 0x4f else if lo == 0x5 then 0x67 else if lo == 0x6 then 0xdc else if lo == 0x7 then 0xea else
    if lo == 0x8 then 0x97 else if lo == 0x9 then 0xf2 else if lo == 0xa then 0xcf else if lo == 0xb then 0xce else
    if lo == 0xc then 0xf0 else if lo == 0xd then 0xb4 else if lo == 0xe then 0xe6 else 0x73
  }

  function SiRow9(lo: bv8): bv8 {
    if lo == 0x0 then 0x96 else if lo == 0x1 then 0xac else if lo == 0x2 then 0x74 else if lo == 0x3 then 0x22 else
    if lo == 0x4 then 0xe7 else if lo == 0x5 then 0xad else if lo == 0x6 then 0x35 else if lo == 0x7 then 0x85 else
    if lo == 0x8 then 0xe2 else if lo == 0x9 then 0xf9 else if lo == 0xa then 0x37 else if lo == 0xb then 0xe8 else
    if lo == 0xc then 0x1c else if lo == 0xd then 0x75 else if lo == 0xe then 0xdf else 0x6e
  }

  function SiRowA(lo: bv8): bv8 {
    if lo == 0x0 then 0x47 else if lo == 0x1 then 0xf1 else if lo == 0x2 then 0x1a else if lo == 0x3 then 0x71 else
    if lo == 0x4 then 0x1d else if lo == 0x5 then 0x29 else if lo == 0x6 then 0xc5 else if lo == 0x7 then 0x89 else
    if lo == 0x8 then 0x6f else if lo == 0x9 then 0xb7 else if lo == 0xa then 0x62 else if lo == 0xb then 0x0e else
    if lo == 0xc then 0xaa else if lo == 0xd then 0x18 else if lo == 0xe then 0xbe else 0x1b
  }

  function SiRowB(lo: bv8): bv8 {
    if lo == 0x0 then 0xfc else if lo == 0x1 then 0x56 else if lo == 0x2 then 0x3e else if lo == 0x3 then 0x4b else
    if lo == 0x4 then 0xc6 else if lo == 0x5 then 0xd2 else if lo == 0x6 then 0x79 else if lo == 0x7 then 0x20 else
    if lo == 0x8 then 0x9a else if lo == 0x9 then 0xdb else if lo == 0xa then 0xc0 else if lo == 0xb then 0xfe else
    if lo == 0xc then 0x78 else if lo == 0xd then 0xcd else if lo == 0xe then 0x5a else 0xf4
  }

  function SiRowC(lo: bv8): bv8 {
    if lo == 0x0 then 0x1f else if lo == 0x1 then 0xdd else if lo == 0x2 then 0xa8 else if lo == 0x3 then 0x33 else
    if lo == 0x4 then 0x88 else if lo == 0x5 then 0x07 else if lo == 0x6 then 0xc7 else if lo == 0x7 then 0x31 else
    if lo == 0x8 then 0xb1 else if lo == 0x9 then 0x12 else if lo == 0xa then 0x10 else if lo == 0xb then 0x59 else
    if lo == 0xc then 0x27 else if lo == 0xd then 0x80 else if lo == 0xe then 0xec else 0x5f
  }

  function SiRowD(lo: bv8): bv8 {
    if lo == 0x0 then 0x60 else if lo == 0x1 then 0x51 else if lo == 0x2 then 0x7f else if lo == 0x3 then 0xa9 else
    if lo == 0x4 then 0x19 else if lo == 0x5 then 0xb5 else if lo == 0x6 then 0x4a else if lo == 0x7 then 0x0d else
    if lo == 0x8 then 0x2d else if lo == 0x9 then 0xe5 else if lo == 0xa then 0x7a else if lo == 0xb then 0x9f else
    if lo == 0xc then 0x93 else if lo == 0xd then 0xc9 else if lo == 0xe then 0x9c else 0xef
  }

  function SiRowE(lo: bv8): bv8 {
    if lo == 0x0 then 0xa0 else if lo == 0x1 then 0xe0 else if lo == 0x2 then 0x3b else if lo == 0x3 then 0x4d else
    if lo == 0x4 then 0xae else if lo == 0x5 then 0x2a else if lo == 0x6 then 0xf5 else if lo == 0x7 then 0xb0 else
    if lo == 0x8 then 0xc8 else if lo == 0x9 then 0xeb else if lo == 0xa then 0xbb else if lo == 0xb then 0x3c else
    if lo == 0xc then 0x83 else if lo == 0xd then 0x53 else if lo == 0xe then 0x99 else 0x61
  }

  function SiRowF(lo: bv8): bv8 {
    if lo == 0x0 then 0x17 else if lo == 0x1 then 0x2b else if lo == 0x2 then 0x04 else if lo == 0x3 then 0x7e else
    if lo == 0x4 then 0xba else if lo == 0x5 then 0x77 else if lo == 0x6 then 0xd6 else if lo == 0x7 then 0x26 else
    if lo == 0x8 then 0xe1 else if lo == 0x9 then 0x69 else if lo == 0xa then 0x14 else if lo == 0xb then 0x63 else
    if lo == 0xc then 0x55 else if lo == 0xd then 0x21 else if lo == 0xe then 0x0c else 0x7d
  }

  // The byte repeated in Td4[x].
  function Si(x: bv8): bv8 {
    var hi, lo := x >> 4, x & 0x0f;
    if hi == 0x0 then SiRow0(lo) else
    if hi == 0x1 then SiRow1(lo) else
    if hi == 0x2 then SiRow2(lo) else
    if hi == 0x3 then SiRow3(lo) else
    if hi == 0x4 then SiRow4(lo) else
    if hi == 0x5 then SiRow5(lo) else
    if hi == 0x6 then SiRow6(lo) else
    if hi == 0x7 then SiRow7(lo) else
    if hi == 0x8 then SiRow8(lo) else
    if hi == 0x9 then SiRow9(lo) else
    if hi == 0xa then SiRowA(lo) else
    if hi == 0xb then SiRowB(lo) else
    if hi == 0xc then SiRowC(lo) else
    if hi == 0xd then SiRowD(lo) else
    if hi == 0xe then SiRowE(lo) else
    SiRowF(lo)
  }

  // Si undoes S on every byte: what every decryption round relies on.
  lemma SiInvertsS(x: bv8)
    ensures Si(S(x)) == x
  {
  }
}
