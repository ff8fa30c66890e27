/** The lookup tables of contrib/aes.c, one function per table column. */
module AesTables {

  import opened Bytes

  /** One row of sixteen entries. */
  function Row(l: byte, e0: byte, e1: byte, e2: byte, e3: byte, e4: byte, e5: byte, e6: byte, e7: byte,
               e8: byte, e9: byte, ea: byte, eb: byte, ec: byte, ed: byte, ee: byte, ef: byte): byte {
    if l < 8 then
      if l < 4 then if l < 2 then if l == 0 then e0 else e1 else if l == 2 then e2 else e3
      else if l < 6 then if l == 4 then e4 else e5 else if l == 6 then e6 else e7
    else
      if l < 12 then if l < 10 then if l == 8 then e8 else e9 else if l == 10 then ea else eb
      else if l < 14 then if l == 12 then ec else ed else if l == 14 then ee else ef
  }

  /** `aes_sbox`, row by the high nibble, column by the low one. */
  function SBox(x: byte): byte {
    var l := x & 0x0f;
    Row(x >> 4,
      Row(l, 0x63, 0x7c, 0x77, 0x7b, 0xf2, 0x6b, 0x6f, 0xc5, 0x30, 0x01, 0x67, 0x2b, 0xfe, 0xd7, 0xab, 0x76),
      Row(l, 0xca, 0x82, 0xc9, 0x7d, 0xfa, 0x59, 0x47, 0xf0, 0xad, 0xd4, 0xa2, 0xaf, 0x9c, 0xa4, 0x72, 0xc0),
      Row(l, 0xb7, 0xfd, 0x93, 0x26, 0x36, 0x3f, 0xf7, 0xcc, 0x34, 0xa5, 0xe5, 0xf1, 0x71, 0xd8, 0x31, 0x15),
      Row(l, 0x04, 0xc7, 0x23, 0xc3, 0x18, 0x96, 0x05, 0x9a, 0x07, 0x12, 0x80, 0xe2, 0xeb, 0x27, 0xb2, 0x75),
      Row(l, 0x09, 0x83, 0x2c, 0x1a, 0x1b, 0x6e, 0x5a, 0xa0, 0x52, 0x3b, 0xd6, 0xb3, 0x29, 0xe3, 0x2f, 0x84),
      Row(l, 0x53, 0xd1, 0x00, 0xed, 0x20, 0xfc, 0xb1, 0x5b, 0x6a, 0xcb, 0xbe, 0x39, 0x4a, 0x4c, 0x58, 0xcf),
      Row(l, 0xd0, 0xef, 0xaa, 0xfb, 0x43, 0x4d, 0x33, 0x85, 0x45, 0xf9, 0x02, 0x7f, 0x50, 0x3c, 0x9f, 0xa8),
      Row(l, 0x51, 0xa3, 0x40, 0x8f, 0x92, 0x9d, 0x38, 0xf5, 0xbc, 0xb6, 0xda, 0x21, 0x10, 0xff, 0xf3, 0xd2),
      Row(l, 0xcd, 0x0c, 0x13, 0xec, 0x5f, 0x97, 0x44, 0x17, 0xc4, 0xa7, 0x7e, 0x3d, 0x64, 0x5d, 0x19, 0x73),
      Row(l, 0x60, 0x81, 0x4f, 0xdc, 0x22, 0x2a, 0x90, 0x88, 0x46, 0xee, 0xb8, 0x14, 0xde, 0x5e, 0x0b, 0xdb),
      Row(l, 0xe0, 0x32, 0x3a, 0x0a, 0x49, 0x06, 0x24, 0x5c, 0xc2, 0xd3, 0xac, 0x62, 0x91, 0x95, 0xe4, 0x79),
      Row(l, 0xe7, 0xc8, 0x37, 0x6d, 0x8d, 0xd5, 0x4e, 0xa9, 0x6c, 0x56, 0xf4, 0xea, 0x65, 0x7a, 0xae, 0x08),
      Row(l, 0xba, 0x78, 0x25, 0x2e, 0x1c, 0xa6, 0xb4, 0xc6, 0xe8, 0xdd, 0x74, 0x1f, 0x4b, 0xbd, 0x8b, 0x8a),
      Row(l, 0x70, 0x3e, 0xb5, 0x66, 0x48, 0x03, 0xf6, 0x0e, 0x61, 0x35, 0x57, 0xb9, 0x86, 0xc1, 0x1d, 0x9e),
      Row(l, 0xe1, 0xf8, 0x98, 0x11, 0x69, 0xd9, 0x8e, 0x94, 0x9b, 0x1e, 0x87, 0xe9, 0xce, 0x55, 0x28, 0xdf),
      Row(l, 0x8c, 0xa1, 0x89, 0x0d, 0xbf, 0xe6, 0x42, 0x68, 0x41, 0x99, 0x2d, 0x0f, 0xb0, 0x54, 0xbb, 0x16)
    )
  }

  /** `aes_invsbox`. */
  function InvSBox(x: byte): byte {
    var l := x & 0x0f;
    Row(x >> 4,
      Row(l, 0x52, 0x09, 0x6a, 0xd5, 0x30, 0x36, 0xa5, 0x38, 0xbf, 0x40, 0xa3, 0x9e, 0x81, 0xf3, 0xd7, 0xfb),
      Row(l, 0x7c, 0xe3, 0x39, 0x82, 0x9b, 0x2f, 0xff, 0x87, 0x34, 0x8e, 0x43, 0x44, 0xc4, 0xde, 0xe9, 0xcb),
      Row(l, 0x54, 0x7b, 0x94, 0x32, 0xa6, 0xc2, 0x23, 0x3d, 0xee, 0x4c, 0x95, 0x0b, 0x42, 0xfa, 0xc3, 0x4e),
      Row(l, 0x08, 0x2e, 0xa1, 0x66, 0x28, 0xd9, 0x24, 0xb2, 0x76, 0x5b, 0xa2, 0x49, 0x6d, 0x8b, 0xd1, 0x25),
      Row(l, 0x72, 0xf8, 0xf6, 0x64, 0x86, 0x68, 0x98, 0x16, 0xd4, 0xa4, 0x5c, 0xcc, 0x5d, 0x65, 0xb6, 0x92),
      Row(l, 0x6c, 0x70, 0x48, 0x50, 0xfd, 0xed, 0xb9, 0xda, 0x5e, 0x15, 0x46, 0x57, 0xa7, 0x8d, 0x9d, 0x84),
      Row(l, 0x90, 0xd8, 0xab, 0x00, 0x8c, 0xbc, 0xd3, 0x0a, 0xf7, 0xe4, 0x58, 0x05, 0xb8, 0xb3, 0x45, 0x06),
      Row(l, 0xd0, 0x2c, 0x1e, 0x8f, 0xca, 0x3f, 0x0f, 0x02, 0xc1, 0xaf, 0xbd, 0x03, 0x01, 0x13, 0x8a, 0x6b),
      Row(l, 0x3a, 0x91, 0x11, 0x41, 0x4f, 0x67, 0xdc, 0xea, 0x97, 0xf2, 0xcf, 0xce, 0xf0, 0xb4, 0xe6, 0x73),
      Row(l, 0x96, 0xac, 0x74, 0x22, 0xe7, 0xad, 0x35, 0x85, 0xe2, 0xf9, 0x37, 0xe8, 0x1c, 0x75, 0xdf, 0x6e),
      Row(l, 0x47, 0xf1, 0x1a, 0x71, 0x1d, 0x29, 0xc5, 0x89, 0x6f, 0xb7, 0x62, 0x0e, 0xaa, 0x18, 0xbe, 0x1b),
      Row(l, 0xfc, 0x56, 0x3e, 0x4b, 0xc6, 0xd2, 0x79, 0x20, 0x9a, 0xdb, 0xc0, 0xfe, 0x78, 0xcd, 0x5a, 0xf4),
      Row(l, 0x1f, 0xdd, 0xa8, 0x33, 0x88, 0x07, 0xc7, 0x31, 0xb1, 0x12, 0x10, 0x59, 0x27, 0x80, 0xec, 0x5f),
      Row(l, 0x60, 0x51, 0x7f, 0xa9, 0x19, 0xb5, 0x4a, 0x0d, 0x2d, 0xe5, 0x7a, 0x9f, 0x93, 0xc9, 0x9c, 0xef),
      Row(l, 0xa0, 0xe0, 0x3b, 0x4d, 0xae, 0x2a, 0xf5, 0xb0, 0xc8, 0xeb, 0xbb, 0x3c, 0x83, 0x53, 0x99, 0x61),
      Row(l, 0x17, 0x2b, 0x04, 0x7e, 0xba, 0x77, 0xd6, 0x26, 0xe1, 0x69, 0x14, 0x63, 0x55, 0x21, 0x0c, 0x7d)
    )
  }

  /** Column 0 of `gf_mul`: the product by 2. */
  function Mul2(x: byte): byte {
    var l := x & 0x0f;
    Row(x >> 4,
      Row(l, 0x00, 0x02, 0x04, 0x06, 0x08, 0x0a, 0x0c, 0x0e, 0x10, 0x12, 0x14, 0x16, 0x18, 0x1a, 0x1c, 0x1e),
      Row(l, 0x20, 0x22, 0x24, 0x26, 0x28, 0x2a, 0x2c, 0x2e, 0x30, 0x32, 0x34, 0x36, 0x38, 0x3a, 0x3c, 0x3e),
      Row(l, 0x40, 0x42, 0x44, 0x46, 0x48, 0x4a, 0x4c, 0x4e, 0x50, 0x52, 0x54, 0x56, 0x58, 0x5a, 0x5c, 0x5e),
      Row(l, 0x60, 0x62, 0x64, 0x66, 0x68, 0x6a, 0x6c, 0x6e, 0x70, 0x72, 0x74, 0x76, 0x78, 0x7a, 0x7c, 0x7e),
      Row(l, 0x80, 0x82, 0x84, 0x86, 0x88, 0x8a, 0x8c, 0x8e, 0x90, 0x92, 0x94, 0x96, 0x98, 0x9a, 0x9c, 0x9e),
      Row(l, 0xa0, 0xa2, 0xa4, 0xa6, 0xa8, 0xaa, 0xac, 0xae, 0xb0, 0xb2, 0xb4, 0xb6, 0xb8, 0xba, 0xbc, 0xbe),
      Row(l, 0xc0, 0xc2, 0xc4, 0xc6, 0xc8, 0xca, 0xcc, 0xce, 0xd0, 0xd2, 0xd4, 0xd6, 0xd8, 0xda, 0xdc, 0xde),
      Row(l, 0xe0, 0xe2, 0xe4, 0xe6, 0xe8, 0xea, 0xec, 0xee, 0xf0, 0xf2, 0xf4, 0xf6, 0xf8, 0xfa, 0xfc, 0xfe),
      Row(l, 0x1b, 0x19, 0x1f, 0x1d, 0x13, 0x11, 0x17, 0x15, 0x0b, 0x09, 0x0f, 0x0d, 0x03, 0x01, 0x07, 0x05),
      Row(l, 0x3b, 0x39, 0x3f, 0x3d, 0x33, 0x31, 0x37, 0x35, 0x2b, 0x29, 0x2f, 0x2d, 0x23, 0x21, 0x27, 0x25),
      Row(l, 0x5b, 0x59, 0x5f, 0x5d, 0x53, 0x51, 0x57, 0x55, 0x4b, 0x49, 0x4f, 0x4d, 0x43, 0x41, 0x47, 0x45),
      Row(l, 0x7b, 0x79, 0x7f, 0x7d, 0x73, 0x71, 0x77, 0x75, 0x6b, 0x69, 0x6f, 0x6d, 0x63, 0x61, 0x67, 0x65),
      Row(l, 0x9b, 0x99, 0x9f, 0x9d, 0x93, 0x91, 0x97, 0x95, 0x8b, 0x89, 0x8f, 0x8d, 0x83, 0x81, 0x87, 0x85),
      Row(l, 0xbb, 0xb9, 0xbf, 0xbd, 0xb3, 0xb1, 0xb7, 0xb5, 0xab, 0xa9, 0xaf, 0xad, 0xa3, 0xa1, 0xa7, 0xa5),
      Row(l, 0xdb, 0xd9, 0xdf, 0xdd, 0xd3, 0xd1, 0xd7, 0xd5, 0xcb, 0xc9, 0xcf, 0xcd, 0xc3, 0xc1, 0xc7, 0xc5),
      Row(l, 0xfb, 0xf9, 0xff, 0xfd, 0xf3, 0xf1, 0xf7, 0xf5, 0xeb, 0xe9, 0xef, 0xed, 0xe3, 0xe1, 0xe7, 0xe5)
    )
  }

  /** Column 1 of `gf_mul`: the product by 3. */
  function Mul3(x: byte): byte {
    var l := x & 0x0f;
    Row(x >> 4,
      Row(l, 0x00, 0x03, 0x06, 0x05, 0x0c, 0x0f, 0x0a, 0x09, 0x18, 0x1b, 0x1e, 0x1d, 0x14, 0x17, 0x12, 0x11),
      Row(l, 0x30, 0x33, 0x36, 0x35, 0x3c, 0x3f, 0x3a, 0x39, 0x28, 0x2b, 0x2e, 0x2d, 0x24, 0x27, 0x22, 0x21),
      Row(l, 0x60, 0x63, 0x66, 0x65, 0x6c, 0x6f, 0x6a, 0x69, 0x78, 0x7b, 0x7e, 0x7d, 0x74, 0x77, 0x72, 0x71),
      Row(l, 0x50, 0x53, 0x56, 0x55, 0x5c, 0x5f, 0x5a, 0x59, 0x48, 0x4b, 0x4e, 0x4d, 0x44, 0x47, 0x42, 0x41),
      Row(l, 0xc0, 0xc3, 0xc6, 0xc5, 0xcc, 0xcf, 0xca, 0xc9, 0xd8, 0xdb, 0xde, 0xdd, 0xd4, 0xd7, 0xd2, 0xd1),
      Row(l, 0xf0, 0xf3, 0xf6, 0xf5, 0xfc, 0xff, 0xfa, 0xf9, 0xe8, 0xeb, 0xee, 0xed, 0xe4, 0xe7, 0xe2, 0xe1),
      Row(l, 0xa0, 0xa3, 0xa6, 0xa5, 0xac, 0xaf, 0xaa, 0xa9, 0xb8, 0xbb, 0xbe, 0xbd, 0xb4, 0xb7, 0xb2, 0xb1),
      Row(l, 0x90, 0x93, 0x96, 0x95, 0x9c, 0x9f, 0x9a, 0x99, 0x88, 0x8b, 0x8e, 0x8d, 0x84, 0x87, 0x82, 0x81),
      Row(l, 0x9b, 0x98, 0x9d, 0x9e, 0x97, 0x94, 0x91, 0x92, 0x83, 0x80, 0x85, 0x86, 0x8f, 0x8c, 0x89, 0x8a),
      Row(l, 0xab, 0xa8, 0xad, 0xae, 0xa7, 0xa4, 0xa1, 0xa2, 0xb3, 0xb0, 0xb5, 0xb6, 0xbf, 0xbc, 0xb9, 0xba),
      Row(l, 0xfb, 0xf8, 0xfd, 0xfe, 0xf7, 0xf4, 0xf1, 0xf2, 0xe3, 0xe0, 0xe5, 0xe6, 0xef, 0xec, 0xe9, 0xea),
      Row(l, 0xcb, 0xc8, 0xcd, 0xce, 0xc7, 0xc4, 0xc1, 0xc2, 0xd3, 0xd0, 0xd5, 0xd6, 0xdf, 0xdc, 0xd9, 0xda),
      Row(l, 0x5b, 0x58, 0x5d, 0x5e, 0x57, 0x54, 0x51, 0x52, 0x43, 0x40, 0x45, 0x46, 0x4f, 0x4c, 0x49, 0x4a),
      Row(l, 0x6b, 0x68, 0x6d, 0x6e, 0x67, 0x64, 0x61, 0x62, 0x73, 0x70, 0x75, 0x76, 0x7f, 0x7c, 0x79, 0x7a),
      Row(l, 0x3b, 0x38, 0x3d, 0x3e, 0x37, 0x34, 0x31, 0x32, 0x23, 0x20, 0x25, 0x26, 0x2f, 0x2c, 0x29, 0x2a),
      Row(l, 0x0b, 0x08, 0x0d, 0x0e, 0x07, 0x04, 0x01, 0x02, 0x13, 0x10, 0x15, 0x16, 0x1f, 0x1c, 0x19, 0x1a)
    )
  }

  /** Column 2 of `gf_mul`: the product by 9. */
  function Mul9(x: byte): byte {
    var l := x & 0x0f;
    Row(x >> 4,
      Row(l, 0x00, 0x09, 0x12, 0x1b, 0x24, 0x2d, 0x36, 0x3f, 0x48, 0x41, 0x5a, 0x53, 0x6c, 0x65, 0x7e, 0x77),
      Row(l, 0x90, 0x99, 0x82, 0x8b, 0xb4, 0xbd, 0xa6, 0xaf, 0xd8, 0xd1, 0xca, 0xc3, 0xfc, 0xf5, 0xee, 0xe7),
      Row(l, 0x3b, 0x32, 0x29, 0x20, 0x1f, 0x16, 0x0d, 0x04, 0x73, 0x7a, 0x61, 0x68, 0x57, 0x5e, 0x45, 0x4c),
      Row(l, 0xab, 0xa2, 0xb9, 0xb0, 0x8f, 0x86, 0x9d, 0x94, 0xe3, 0xea, 0xf1, 0xf8, 0xc7, 0xce, 0xd5, 0xdc),
      Row(l, 0x76, 0x7f, 0x64, 0x6d, 0x52, 0x5b, 0x40, 0x49, 0x3e, 0x37, 0x2c, 0x25, 0x1a, 0x13, 0x08, 0x01),
      Row(l, 0xe6, 0xef, 0xf4, 0xfd, 0xc2, 0xcb, 0xd0, 0xd9, 0xae, 0xa7, 0xbc, 0xb5, 0x8a, 0x83, 0x98, 0x91),
      Row(l, 0x4d, 0x44, 0x5f, 0x56, 0x69, 0x60, 0x7b, 0x72, 0x05, 0x0c, 0x17, 0x1e, 0x21, 0x28, 0x33, 0x3a),
      Row(l, 0xdd, 0xd4, 0xcf, 0xc6, 0xf9, 0xf0, 0xeb, 0xe2, 0x95, 0x9c, 0x87, 0x8e, 0xb1, 0xb8, 0xa3, 0xaa),
      Row(l, 0xec, 0xe5, 0xfe, 0xf7, 0xc8, 0xc1, 0xda, 0xd3, 0xa4, 0xad, 0xb6, 0xbf, 0x80, 0x89, 0x92, 0x9b),
      Row(l, 0x7c, 0x75, 0x6e, 0x67, 0x58, 0x51, 0x4a, 0x43, 0x34, 0x3d, 0x26, 0x2f, 0x10, 0x19, 0x02, 0x0b),
      Row(l, 0xd7, 0xde, 0xc5, 0xcc, 0xf3, 0xfa, 0xe1, 0xe8, 0x9f, 0x96, 0x8d, 0x84, 0xbb, 0xb2, 0xa9, 0xa0),
      Row(l, 0x47, 0x4e, 0x55, 0x5c, 0x63, 0x6a, 0x71, 0x78, 0x0f, 0x06, 0x1d, 0x14, 0x2b, 0x22, 0x39, 0x30),
      Row(l, 0x9a, 0x93, 0x88, 0x81, 0xbe, 0xb7, 0xac, 0xa5, 0xd2, 0xdb, 0xc0, 0xc9, 0xf6, 0xff, 0xe4, 0xed),
      Row(l, 0x0a, 0x03, 0x18, 0x11, 0x2e, 0x27, 0x3c, 0x35, 0x42, 0x4b, 0x50, 0x59, 0x66, 0x6f, 0x74, 0x7d),
      Row(l, 0xa1, 0xa8, 0xb3, 0xba, 0x85, 0x8c, 0x97, 0x9e, 0xe9, 0xe0, 0xfb, 0xf2, 0xcd, 0xc4, 0xdf, 0xd6),
      Row(l, 0x31, 0x38, 0x23, 0x2a, 0x15, 0x1c, 0x07, 0x0e, 0x79, 0x70, 0x6b, 0x62, 0x5d, 0x54, 0x4f, 0x46)
    )
  }

  /** Column 3 of `gf_mul`: the product by 11. */
  function Mul11(x: byte): byte {
    var l := x & 0x0f;
    Row(x >> 4,
      Row(l, 0x00, 0x0b, 0x16, 0x1d, 0x2c, 0x27, 0x3a, 0x31, 0x58, 0x53, 0x4e, 0x45, 0x74, 0x7f, 0x62, 0x69),
      Row(l, 0xb0, 0xbb, 0xa6, 0xad, 0x9c, 0x97, 0x8a, 0x81, 0xe8, 0xe3, 0xfe, 0xf5, 0xc4, 0xcf, 0xd2, 0xd9),
      Row(l, 0x7b, 0x70, 0x6d, 0x66, 0x57, 0x5c, 0x41, 0x4a, 0x23, 0x28, 0x35, 0x3e, 0x0f, 0x04, 0x19, 0x12),
      Row(l, 0xcb, 0xc0, 0xdd, 0xd6, 0xe7, 0xec, 0xf1, 0xfa, 0x93, 0x98, 0x85, 0x8e, 0xbf, 0xb4, 0xa9, 0xa2),
      Row(l, 0xf6, 0xfd, 0xe0, 0xeb, 0xda, 0xd1, 0xcc, 0xc7, 0xae, 0xa5, 0xb8, 0xb3, 0x82, 0x89, 0x94, 0x9f),
      Row(l, 0x46, 0x4d, 0x50, 0x5b, 0x6a, 0x61, 0x7c, 0x77, 0x1e, 0x15, 0x08, 0x03, 0x32, 0x39, 0x24, 0x2f),
      Row(l, 0x8d, 0x86, 0x9b, 0x90, 0xa1, 0xaa, 0xb7, 0xbc, 0xd5, 0xde, 0xc3, 0xc8, 0xf9, 0xf2, 0xef, 0xe4),
      Row(l, 0x3d, 0x36, 0x2b, 0x20, 0x11, 0x1a, 0x07, 0x0c, 0x65, 0x6e, 0x73, 0x78, 0x49, 0x42, 0x5f, 0x54),
      Row(l, 0xf7, 0xfc, 0xe1, 0xea, 0xdb, 0xd0, 0xcd, 0xc6, 0xaf, 0xa4, 0xb9, 0xb2, 0x83, 0x88, 0x95, 0x9e),
      Row(l, 0x47, 0x4c, 0x51, 0x5a, 0x6b, 0x60, 0x7d, 0x76, 0x1f, 0x14, 0x09, 0x02, 0x33, 0x38, 0x25, 0x2e),
      Row(l, 0x8c, 0x87, 0x9a, 0x91, 0xa0, 0xab, 0xb6, 0xbd, 0xd4, 0xdf, 0xc2, 0xc9, 0xf8, 0xf3, 0xee, 0xe5),
      Row(l, 0x3c, 0x37, 0x2a, 0x21, 0x10, 0x1b, 0x06, 0x0d, 0x64, 0x6f, 0x72, 0x79, 0x48, 0x43, 0x5e, 0x55),
      Row(l, 0x01, 0x0a, 0x17, 0x1c, 0x2d, 0x26, 0x3b, 0x30, 0x59, 0x52, 0x4f, 0x44, 0x75, 0x7e, 0x63, 0x68),
      Row(l, 0xb1, 0xba, 0xa7, 0xac, 0x9d, 0x96, 0x8b, 0x80, 0xe9, 0xe2, 0xff, 0xf4, 0xc5, 0xce, 0xd3, 0xd8),
      Row(l, 0x7a, 0x71, 0x6c, 0x67, 0x56, 0x5d, 0x40, 0x4b, 0x22, 0x29, 0x34, 0x3f, 0x0e, 0x05, 0x18, 0x13),
      Row(l, 0xca, 0xc1, 0xdc, 0xd7, 0xe6, 0xed, 0xf0, 0xfb, 0x92, 0x99, 0x84, 0x8f, 0xbe, 0xb5, 0xa8, 0xa3)
    )
  }

  /** Column 4 of `gf_mul`: the product by 13. */
  function Mul13(x: byte): byte {
    var l := x & 0x0f;
    Row(x >> 4,
      Row(l, 0x00, 0x0d, 0x1a, 0x17, 0x34, 0x39, 0x2e, 0x23, 0x68, 0x65, 0x72, 0x7f, 0x5c, 0x51, 0x46, 0x4b),
      Row(l, 0xd0, 0xdd, 0xca, 0xc7, 0xe4, 0xe9, 0xfe, 0xf3, 0xb8, 0xb5, 0xa2, 0xaf, 0x8c, 0x81, 0x96, 0x9b),
      Row(l, 0xbb, 0xb6, 0xa1, 0xac, 0x8f, 0x82, 0x95, 0x98, 0xd3, 0xde, 0xc9, 0xc4, 0xe7, 0xea, 0xfd, 0xf0),
      Row(l, 0x6b, 0x66, 0x71, 0x7c, 0x5f, 0x52, 0x45, 0x48, 0x03, 0x0e, 0x19, 0x14, 0x37, 0x3a, 0x2d, 0x20),
      Row(l, 0x6d, 0x60, 0x77, 0x7a, 0x59, 0x54, 0x43, 0x4e, 0x05, 0x08, 0x1f, 0x12, 0x31, 0x3c, 0x2b, 0x26),
      Row(l, 0xbd, 0xb0, 0xa7, 0xaa, 0x89, 0x84, 0x93, 0x9e, 0xd5, 0xd8, 0xcf, 0xc2, 0xe1, 0xec, 0xfb, 0xf6),
      Row(l, 0xd6, 0xdb, 0xcc, 0xc1, 0xe2, 0xef, 0xf8, 0xf5, 0xbe, 0xb3, 0xa4, 0xa9, 0x8a, 0x87, 0x90, 0x9d),
      Row(l, 0x06, 0x0b, 0x1c, 0x11, 0x32, 0x3f, 0x28, 0x25, 0x6e, 0x63, 0x74, 0x79, 0x5a, 0x57, 0x40, 0x4d),
      Row(l, 0xda, 0xd7, 0xc0, 0xcd, 0xee, 0xe3, 0xf4, 0xf9, 0xb2, 0xbf, 0xa8, 0xa5, 0x86, 0x8b, 0x9c, 0x91),
      Row(l, 0x0a, 0x07, 0x10, 0x1d, 0x3e, 0x33, 0x24, 0x29, 0x62, 0x6f, 0x78, 0x75, 0x56, 0x5b, 0x4c, 0x41),
      Row(l, 0x61, 0x6c, 0x7b, 0x76, 0x55, 0x58, 0x4f, 0x42, 0x09, 0x04, 0x13, 0x1e, 0x3d, 0x30, 0x27, 0x2a),
      Row(l, 0xb1, 0xbc, 0xab, 0xa6, 0x85, 0x88, 0x9f, 0x92, 0xd9, 0xd4, 0xc3, 0xce, 0xed, 0xe0, 0xf7, 0xfa),
      Row(l, 0xb7, 0xba, 0xad, 0xa0, 0x83, 0x8e, 0x99, 0x94, 0xdf, 0xd2, 0xc5, 0xc8, 0xeb, 0xe6, 0xf1, 0xfc),
      Row(l, 0x67, 0x6a, 0x7d, 0x70, 0x53, 0x5e, 0x49, 0x44, 0x0f, 0x02, 0x15, 0x18, 0x3b, 0x36, 0x21, 0x2c),
      Row(l, 0x0c, 0x01, 0x16, 0x1b, 0x38, 0x35, 0x22, 0x2f, 0x64, 0x69, 0x7e, 0x73, 0x50, 0x5d, 0x4a, 0x47),
      Row(l, 0xdc, 0xd1, 0xc6, 0xcb, 0xe8, 0xe5, 0xf2, 0xff, 0xb4, 0xb9, 0xae, 0xa3, 0x80, 0x8d, 0x9a, 0x97)
    )
  }

  /** Column 5 of `gf_mul`: the product by 14. */
  function Mul14(x: byte): byte {
    var l := x & 0x0f;
    Row(x >> 4,
      Row(l, 0x00, 0x0e, 0x1c, 0x12, 0x38, 0x36, 0x24, 0x2a, 0x70, 0x7e, 0x6c, 0x62, 0x48, 0x46, 0x54, 0x5a),
      Row(l, 0xe0, 0xee, 0xfc, 0xf2, 0xd8, 0xd6, 0xc4, 0xca, 0x90, 0x9e, 0x8c, 0x82, 0xa8, 0xa6, 0xb4, 0xba),
      Row(l, 0xdb, 0xd5, 0xc7, 0xc9, 0xe3, 0xed, 0xff, 0xf1, 0xab, 0xa5, 0xb7, 0xb9, 0x93, 0x9d, 0x8f, 0x81),
      Row(l, 0x3b, 0x35, 0x27, 0x29, 0x03, 0x0d, 0x1f, 0x11, 0x4b, 0x45, 0x57, 0x59, 0x73, 0x7d, 0x6f, 0x61),
      Row(l, 0xad, 0xa3, 0xb1, 0xbf, 0x95, 0x9b, 0x89, 0x87, 0xdd, 0xd3, 0xc1, 0xcf, 0xe5, 0xeb, 0xf9, 0xf7),
      Row(l, 0x4d, 0x43, 0x51, 0x5f, 0x75, 0x7b, 0x69, 0x67, 0x3d, 0x33, 0x21, 0x2f, 0x05, 0x0b, 0x19, 0x17),
      Row(l, 0x76, 0x78, 0x6a, 0x64, 0x4e, 0x40, 0x52, 0x5c, 0x06, 0x08, 0x1a, 0x14, 0x3e, 0x30, 0x22, 0x2c),
      Row(l, 0x96, 0x98, 0x8a, 0x84, 0xae, 0xa0, 0xb2, 0xbc, 0xe6, 0xe8, 0xfa, 0xf4, 0xde, 0xd0, 0xc2, 0xcc),
      Row(l, 0x41, 0x4f, 0x5d, 0x53, 0x79, 0x77, 0x65, 0x6b, 0x31, 0x3f, 0x2d, 0x23, 0x09, 0x07, 0x15, 0x1b),
      Row(l, 0xa1, 0xaf, 0xbd, 0xb3, 0x99, 0x97, 0x85, 0x8b, 0xd1, 0xdf, 0xcd, 0xc3, 0xe9, 0xe7, 0xf5, 0xfb),
      Row(l, 0x9a, 0x94, 0x86, 0x88, 0xa2, 0xac, 0xbe, 0xb0, 0xea, 0xe4, 0xf6, 0xf8, 0xd2, 0xdc, 0xce, 0xc0),
      Row(l, 0x7a, 0x74, 0x66, 0x68, 0x42, 0x4c, 0x5e, 0x50, 0x0a, 0x04, 0x16, 0x18, 0x32, 0x3c, 0x2e, 0x20),
      Row(l, 0xec, 0xe2, 0xf0, 0xfe, 0xd4, 0xda, 0xc8, 0xc6, 0x9c, 0x92, 0x80, 0x8e, 0xa4, 0xaa, 0xb8, 0xb6),
      Row(l, 0x0c, 0x02, 0x10, 0x1e, 0x34, 0x3a, 0x28, 0x26, 0x7c, 0x72, 0x60, 0x6e, 0x44, 0x4a, 0x58, 0x56),
      Row(l, 0x37, 0x39, 0x2b, 0x25, 0x0f, 0x01, 0x13, 0x1d, 0x47, 0x49, 0x5b, 0x55, 0x7f, 0x71, 0x63, 0x6d),
      Row(l, 0xd7, 0xd9, 0xcb, 0xc5, 0xef, 0xe1, 0xf3, 0xfd, 0xa7, 0xa9, 0xbb, 0xb5, 0x9f, 0x91, 0x83, 0x8d)
    )
  }

  // ----- GF(2^8), section 4 of FIPS 197 ------------------------------------------

  /** Addition. */
  function Add(x: byte, y: byte): byte {
    x ^ y
  }

  function Add3(x: byte, y: byte, z: byte): byte {
    Add(Add(x, y), z)
  }

  function Add4(x: byte, y: byte, z: byte, w: byte): byte {
    Add(Add(x, y), Add(z, w))
  }

  /** Multiplication by x, section 4.2.1. */
  function XTime(x: byte): byte {
    (x << 1) ^ ((0 - (x >> 7)) & 0x1b)
  }

  function X2(x: byte): byte { XTime(x) }
  function X4(x: byte): byte { XTime(XTime(x)) }
  function X8(x: byte): byte { XTime(XTime(XTime(x))) }

  // ----- the substitution tables are inverse to each other ---------------------

  lemma SBoxInverse0(x: byte)
    requires x & 0xe0 == 0x00
    ensures InvSBox(SBox(x)) == x
  {
  }

  lemma SBoxInverse1(x: byte)
    requires x & 0xe0 == 0x20
    ensures InvSBox(SBox(x)) == x
  {
  }

  lemma SBoxInverse2(x: byte)
    requires x & 0xe0 == 0x40
    ensures InvSBox(SBox(x)) == x
  {
  }

  lemma SBoxInverse3(x: byte)
    requires x & 0xe0 == 0x60
    ensures InvSBox(SBox(x)) == x
  {
  }

  lemma SBoxInverse4(x: byte)
    requires x & 0xe0 == 0x80
    ensures InvSBox(SBox(x)) == x
  {
  }

  lemma SBoxInverse5(x: byte)
    requires x & 0xe0 == 0xa0
    ensures InvSBox(SBox(x)) == x
  {
  }

  lemma SBoxInverse6(x: byte)
    requires x & 0xe0 == 0xc0
    ensures InvSBox(SBox(x)) == x
  {
  }

  lemma SBoxInverse7(x: byte)
    requires x & 0xe0 == 0xe0
    ensures InvSBox(SBox(x)) == x
  {
  }

  lemma SBoxInverse(x: byte)
    ensures InvSBox(SBox(x)) == x
  {
    hide SBox, InvSBox;
    if x & 0xe0 == 0x00 { SBoxInverse0(x); }
    else if x & 0xe0 == 0x20 { SBoxInverse1(x); }
    else if x & 0xe0 == 0x40 { SBoxInverse2(x); }
    else if x & 0xe0 == 0x60 { SBoxInverse3(x); }
    else if x & 0xe0 == 0x80 { SBoxInverse4(x); }
    else if x & 0xe0 == 0xa0 { SBoxInverse5(x); }
    else if x & 0xe0 == 0xc0 { SBoxInverse6(x); }
    else { SBoxInverse7(x); }
  }

  // ----- the substitution, section 5.1.1 of FIPS 197 ------------------------------

  /** `x` if the bit is set. */
  function Masked(y: byte, bit: byte, x: byte): byte {
    if y & bit == 0 then 0 else x
  }

  /** The product of two bytes, bit by bit from the highest. */
  function Product(x: byte, y: byte): byte {
    var p7 := Masked(y, 0x80, x);
    var p6 := XTime(p7) ^ Masked(y, 0x40, x);
    var p5 := XTime(p6) ^ Masked(y, 0x20, x);
    var p4 := XTime(p5) ^ Masked(y, 0x10, x);
    var p3 := XTime(p4) ^ Masked(y, 0x08, x);
    var p2 := XTime(p3) ^ Masked(y, 0x04, x);
    var p1 := XTime(p2) ^ Masked(y, 0x02, x);
    XTime(p1) ^ Masked(y, 0x01, x)
  }

  /** Zero has no inverse and stands for itself. */
  predicate IsInverse(x: byte, y: byte) {
    if x == 0 then y == 0 else Product(x, y) == 1
  }

  /** Bit i of the result is the sum of bits i, i + 4, i + 5, i + 6 and i + 7, and of bit i
      of 0x63. */
  function Affine(y: byte): byte {
    Add(Add(Add4(y, (y << 1) | (y >> 7), (y << 2) | (y >> 6), (y << 3) | (y >> 5)), (y << 4) | (y >> 4)), 0x63)
  }

  function UndoAffine(s: byte): byte {
    Add(Add3((s << 1) | (s >> 7), (s << 3) | (s >> 5), (s << 6) | (s >> 2)), 0x05)
  }

  lemma AffineUndone(s: byte)
    ensures Affine(UndoAffine(s)) == s
  {
  }

  lemma SBoxInverts0(x: byte)
    requires x & 0xf0 == 0x00
    ensures IsInverse(x, UndoAffine(SBox(x)))
  {
  }

  lemma SBoxInverts1(x: byte)
    requires x & 0xf0 == 0x10
    ensures IsInverse(x, UndoAffine(SBox(x)))
  {
  }

  lemma SBoxInverts2(x: byte)
    requires x & 0xf0 == 0x20
    ensures IsInverse(x, UndoAffine(SBox(x)))
  {
  }

  lemma SBoxInverts3(x: byte)
    requires x & 0xf0 == 0x30
    ensures IsInverse(x, UndoAffine(SBox(x)))
  {
  }

  lemma SBoxInverts4(x: byte)
    requires x & 0xf0 == 0x40
    ensures IsInverse(x, UndoAffine(SBox(x)))
  {
  }

  lemma SBoxInverts5(x: byte)
    requires x & 0xf0 == 0x50
    ensures IsInverse(x, UndoAffine(SBox(x)))
  {
  }

  lemma SBoxInverts6(x: byte)
    requires x & 0xf0 == 0x60
    ensures IsInverse(x, UndoAffine(SBox(x)))
  {
  }

  lemma SBoxInverts7(x: byte)
    requires x & 0xf0 == 0x70
    ensures IsInverse(x, UndoAffine(SBox(x)))
  {
  }

  lemma SBoxInverts8(x: byte)
    requires x & 0xf0 == 0x80
    ensures IsInverse(x, UndoAffine(SBox(x)))
  {
  }

  lemma SBoxInverts9(x: byte)
    requires x & 0xf0 == 0x90
    ensures IsInverse(x, UndoAffine(SBox(x)))
  {
  }

  lemma SBoxInverts10(x: byte)
    requires x & 0xf0 == 0xa0
    ensures IsInverse(x, UndoAffine(SBox(x)))
  {
  }

  lemma SBoxInverts11(x: byte)
    requires x & 0xf0 == 0xb0
    ensures IsInverse(x, UndoAffine(SBox(x)))
  {
  }

  lemma SBoxInverts12(x: byte)
    requires x & 0xf0 == 0xc0
    ensures IsInverse(x, UndoAffine(SBox(x)))
  {
  }

  lemma SBoxInverts13(x: byte)
    requires x & 0xf0 == 0xd0
    ensures IsInverse(x, UndoAffine(SBox(x)))
  {
  }

  lemma SBoxInverts14(x: byte)
    requires x & 0xf0 == 0xe0
    ensures IsInverse(x, UndoAffine(SBox(x)))
  {
  }

  lemma SBoxInverts15(x: byte)
    requires x & 0xf0 == 0xf0
    ensures IsInverse(x, UndoAffine(SBox(x)))
  {
  }

  lemma SBoxInverts(x: byte)
    ensures IsInverse(x, UndoAffine(SBox(x)))
  {
    hide SBox, IsInverse, UndoAffine;
    if x & 0xf0 == 0x00 { SBoxInverts0(x); }
    else if x & 0xf0 == 0x10 { SBoxInverts1(x); }
    else if x & 0xf0 == 0x20 { SBoxInverts2(x); }
    else if x & 0xf0 == 0x30 { SBoxInverts3(x); }
    else if x & 0xf0 == 0x40 { SBoxInverts4(x); }
    else if x & 0xf0 == 0x50 { SBoxInverts5(x); }
    else if x & 0xf0 == 0x60 { SBoxInverts6(x); }
    else if x & 0xf0 == 0x70 { SBoxInverts7(x); }
    else if x & 0xf0 == 0x80 { SBoxInverts8(x); }
    else if x & 0xf0 == 0x90 { SBoxInverts9(x); }
    else if x & 0xf0 == 0xa0 { SBoxInverts10(x); }
    else if x & 0xf0 == 0xb0 { SBoxInverts11(x); }
    else if x & 0xf0 == 0xc0 { SBoxInverts12(x); }
    else if x & 0xf0 == 0xd0 { SBoxInverts13(x); }
    else if x & 0xf0 == 0xe0 { SBoxInverts14(x); }
    else { SBoxInverts15(x); }
  }

  /** The table is the substitution of section 5.1.1: the inverse in the field, mapped. */
  lemma SBoxSubstitutes(x: byte) returns (y: byte)
    ensures IsInverse(x, y) && SBox(x) == Affine(y)
  {
    hide SBox, Affine, IsInverse;
    y := UndoAffine(SBox(x));
    AffineUndone(SBox(x));
    SBoxInverts(x);
  }

  // ----- the product tables are multiplication in GF(2^8) -----------------------

  lemma Mul2Product0(x: byte)
    requires x & 0x80 == 0x00
    ensures Mul2(x) == X2(x)
  {
  }

  lemma Mul2Product1(x: byte)
    requires x & 0x80 == 0x80
    ensures Mul2(x) == X2(x)
  {
  }

  lemma Mul2Product(x: byte)
    ensures Mul2(x) == X2(x)
  {
    hide Mul2, X2, X4, X8, Add, Add3;
    if x & 0x80 == 0x00 { Mul2Product0(x); }
    else { Mul2Product1(x); }
  }

  lemma Mul3Product0(x: byte)
    requires x & 0x80 == 0x00
    ensures Mul3(x) == Add(X2(x), x)
  {
  }

  lemma Mul3Product1(x: byte)
    requires x & 0x80 == 0x80
    ensures Mul3(x) == Add(X2(x), x)
  {
  }

  lemma Mul3Product(x: byte)
    ensures Mul3(x) == Add(X2(x), x)
  {
    hide Mul3, X2, X4, X8, Add, Add3;
    if x & 0x80 == 0x00 { Mul3Product0(x); }
    else { Mul3Product1(x); }
  }

  lemma Mul9Product0(x: byte)
    requires x & 0xc0 == 0x00
    ensures Mul9(x) == Add(X8(x), x)
  {
  }

  lemma Mul9Product1(x: byte)
    requires x & 0xc0 == 0x40
    ensures Mul9(x) == Add(X8(x), x)
  {
  }

  lemma Mul9Product2(x: byte)
    requires x & 0xc0 == 0x80
    ensures Mul9(x) == Add(X8(x), x)
  {
  }

  lemma Mul9Product3(x: byte)
    requires x & 0xc0 == 0xc0
    ensures Mul9(x) == Add(X8(x), x)
  {
  }

  lemma Mul9Product(x: byte)
    ensures Mul9(x) == Add(X8(x), x)
  {
    hide Mul9, X2, X4, X8, Add, Add3;
    if x & 0xc0 == 0x00 { Mul9Product0(x); }
    else if x & 0xc0 == 0x40 { Mul9Product1(x); }
    else if x & 0xc0 == 0x80 { Mul9Product2(x); }
    else { Mul9Product3(x); }
  }

  lemma Mul11Product0(x: byte)
    requires x & 0xc0 == 0x00
    ensures Mul11(x) == Add3(X8(x), X2(x), x)
  {
  }

  lemma Mul11Product1(x: byte)
    requires x & 0xc0 == 0x40
    ensures Mul11(x) == Add3(X8(x), X2(x), x)
  {
  }

  lemma Mul11Product2(x: byte)
    requires x & 0xc0 == 0x80
    ensures Mul11(x) == Add3(X8(x), X2(x), x)
  {
  }

  lemma Mul11Product3(x: byte)
    requires x & 0xc0 == 0xc0
    ensures Mul11(x) == Add3(X8(x), X2(x), x)
  {
  }

  lemma Mul11Product(x: byte)
    ensures Mul11(x) == Add3(X8(x), X2(x), x)
  {
    hide Mul11, X2, X4, X8, Add, Add3;
    if x & 0xc0 == 0x00 { Mul11Product0(x); }
    else if x & 0xc0 == 0x40 { Mul11Product1(x); }
    else if x & 0xc0 == 0x80 { Mul11Product2(x); }
    else { Mul11Product3(x); }
  }

  lemma Mul13Product0(x: byte)
    requires x & 0xc0 == 0x00
    ensures Mul13(x) == Add3(X8(x), X4(x), x)
  {
  }

  lemma Mul13Product1(x: byte)
    requires x & 0xc0 == 0x40
    ensures Mul13(x) == Add3(X8(x), X4(x), x)
  {
  }

  lemma Mul13Product2(x: byte)
    requires x & 0xc0 == 0x80
    ensures Mul13(x) == Add3(X8(x), X4(x), x)
  {
  }

  lemma Mul13Product3(x: byte)
    requires x & 0xc0 == 0xc0
    ensures Mul13(x) == Add3(X8(x), X4(x), x)
  {
  }

  lemma Mul13Product(x: byte)
    ensures Mul13(x) == Add3(X8(x), X4(x), x)
  {
    hide Mul13, X2, X4, X8, Add, Add3;
    if x & 0xc0 == 0x00 { Mul13Product0(x); }
    else if x & 0xc0 == 0x40 { Mul13Product1(x); }
    else if x & 0xc0 == 0x80 { Mul13Product2(x); }
    else { Mul13Product3(x); }
  }

  lemma Mul14Product0(x: byte)
    requires x & 0xc0 == 0x00
    ensures Mul14(x) == Add3(X8(x), X4(x), X2(x))
  {
  }

  lemma Mul14Product1(x: byte)
    requires x & 0xc0 == 0x40
    ensures Mul14(x) == Add3(X8(x), X4(x), X2(x))
  {
  }

  lemma Mul14Product2(x: byte)
    requires x & 0xc0 == 0x80
    ensures Mul14(x) == Add3(X8(x), X4(x), X2(x))
  {
  }

  lemma Mul14Product3(x: byte)
    requires x & 0xc0 == 0xc0
    ensures Mul14(x) == Add3(X8(x), X4(x), X2(x))
  {
  }

  lemma Mul14Product(x: byte)
    ensures Mul14(x) == Add3(X8(x), X4(x), X2(x))
  {
    hide Mul14, X2, X4, X8, Add, Add3;
    if x & 0xc0 == 0x00 { Mul14Product0(x); }
    else if x & 0xc0 == 0x40 { Mul14Product1(x); }
    else if x & 0xc0 == 0x80 { Mul14Product2(x); }
    else { Mul14Product3(x); }
  }
}
