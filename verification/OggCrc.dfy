/** The generator behind the page checksum of the Ogg container: section 6 of RFC 3533. */
module CrcGenerator {

  function Xor(x: bv32, y: bv32): bv32 {
    x ^ y
  }

  function ShiftLeft(r: bv32): bv32 {
    r << 1
  }

  /** True when shifting r left by one drops a one. */
  predicate TopBit(r: bv32) {
    r & 0x80000000 != 0
  }

  /** One bit of the generator: shift left, and subtract the polynomial when a one drops out. */
  function ShiftBit(r: bv32): bv32 {
    if TopBit(r) then (r << 1) ^ 0x04c11db7 else r << 1
  }

  /** Four bits of the generator. */
  function ShiftNibble(r: bv32): bv32 {
    ShiftBit(ShiftBit(ShiftBit(ShiftBit(r))))
  }

  /** Eight bits of the generator. */
  function ShiftByte(r: bv32): bv32 {
    ShiftNibble(ShiftNibble(r))
  }

  // A summand whose top bit is clear only moves.

  lemma {:induction false} ReducedShiftOfSum(t: bv32, l: bv32)
    requires TopBit(t) && !TopBit(l)
    ensures ShiftBit(Xor(t, l)) == Xor(ShiftBit(t), ShiftLeft(l))
  {
  }

  lemma {:induction false} PlainShiftOfSum(t: bv32, l: bv32)
    requires !TopBit(t) && !TopBit(l)
    ensures ShiftBit(Xor(t, l)) == Xor(ShiftBit(t), ShiftLeft(l))
  {
  }

  lemma {:induction false} ShiftBitOfSum(t: bv32, l: bv32)
    requires !TopBit(l)
    ensures ShiftBit(Xor(t, l)) == Xor(ShiftBit(t), ShiftLeft(l))
  {
    if TopBit(t) {
      ReducedShiftOfSum(t, l);
    } else {
      PlainShiftOfSum(t, l);
    }
  }

  lemma {:induction false} ShiftNibbleOfSum(t: bv32, l: bv32, l1: bv32, l2: bv32, l3: bv32)
    requires l1 == ShiftLeft(l) && l2 == ShiftLeft(l1) && l3 == ShiftLeft(l2)
    requires !TopBit(l) && !TopBit(l1) && !TopBit(l2) && !TopBit(l3)
    ensures ShiftNibble(Xor(t, l)) == Xor(ShiftNibble(t), ShiftLeft(l3))
  {
    var t1 := ShiftBit(t);
    var t2 := ShiftBit(t1);
    var t3 := ShiftBit(t2);
    ShiftBitOfSum(t, l);
    ShiftBitOfSum(t1, l1);
    ShiftBitOfSum(t2, l2);
    ShiftBitOfSum(t3, l3);
  }

  lemma {:induction false} TopBitsClear(l: bv32)
    requires l & 0xf0000000 == 0
    ensures !TopBit(l) && !TopBit(ShiftLeft(l)) && !TopBit(ShiftLeft(ShiftLeft(l)))
    ensures !TopBit(ShiftLeft(ShiftLeft(ShiftLeft(l))))
  {
  }

  function ShiftLeft4(l: bv32): bv32 {
    ShiftLeft(ShiftLeft(ShiftLeft(ShiftLeft(l))))
  }

  lemma {:induction false} ShiftNibbleOfLowSum(t: bv32, l: bv32)
    requires l & 0xf0000000 == 0
    ensures ShiftNibble(Xor(t, l)) == Xor(ShiftNibble(t), ShiftLeft4(l))
  {
    TopBitsClear(l);
    ShiftNibbleOfSum(t, l, ShiftLeft(l), ShiftLeft(ShiftLeft(l)), ShiftLeft(ShiftLeft(ShiftLeft(l))));
  }

  lemma {:induction false} ShiftByteOfLowSum(t: bv32, l: bv32)
    requires l & 0xff000000 == 0
    ensures ShiftByte(Xor(t, l)) == Xor(ShiftByte(t), ShiftLeft4(ShiftLeft4(l)))
  {
    StillLow(l);
    ShiftNibbleOfLowSum(t, l);
    ShiftNibbleOfLowSum(ShiftNibble(t), ShiftLeft4(l));
  }

  lemma {:induction false} StillLow(l: bv32)
    requires l & 0xff000000 == 0
    ensures l & 0xf0000000 == 0 && ShiftLeft4(l) & 0xf0000000 == 0
  {
  }

  lemma {:induction false} ShiftLeft4Twice(l: bv32)
    ensures ShiftLeft4(ShiftLeft4(l)) == l << 8
  {
  }
}

/** The direct-table form of the generator, entry by entry. */
module CrcTable {
  import opened CrcGenerator

  // The lookup table, sixteen entries a row.
  const ROW_0: seq<bv32> := [
    0x00000000, 0x04c11db7, 0x09823b6e, 0x0d4326d9, 0x130476dc, 0x17c56b6b, 0x1a864db2, 0x1e475005,
    0x2608edb8, 0x22c9f00f, 0x2f8ad6d6, 0x2b4bcb61, 0x350c9b64, 0x31cd86d3, 0x3c8ea00a, 0x384fbdbd]
  const ROW_1: seq<bv32> := [
    0x4c11db70, 0x48d0c6c7, 0x4593e01e, 0x4152fda9, 0x5f15adac, 0x5bd4b01b, 0x569796c2, 0x52568b75,
    0x6a1936c8, 0x6ed82b7f, 0x639b0da6, 0x675a1011, 0x791d4014, 0x7ddc5da3, 0x709f7b7a, 0x745e66cd]
  const ROW_2: seq<bv32> := [
    0x9823b6e0, 0x9ce2ab57, 0x91a18d8e, 0x95609039, 0x8b27c03c, 0x8fe6dd8b, 0x82a5fb52, 0x8664e6e5,
    0xbe2b5b58, 0xbaea46ef, 0xb7a96036, 0xb3687d81, 0xad2f2d84, 0xa9ee3033, 0xa4ad16ea, 0xa06c0b5d]
  const ROW_3: seq<bv32> := [
    0xd4326d90, 0xd0f37027, 0xddb056fe, 0xd9714b49, 0xc7361b4c, 0xc3f706fb, 0xceb42022, 0xca753d95,
    0xf23a8028, 0xf6fb9d9f, 0xfbb8bb46, 0xff79a6f1, 0xe13ef6f4, 0xe5ffeb43, 0xe8bccd9a, 0xec7dd02d]
  const ROW_4: seq<bv32> := [
    0x34867077, 0x30476dc0, 0x3d044b19, 0x39c556ae, 0x278206ab, 0x23431b1c, 0x2e003dc5, 0x2ac12072,
    0x128e9dcf, 0x164f8078, 0x1b0ca6a1, 0x1fcdbb16, 0x018aeb13, 0x054bf6a4, 0x0808d07d, 0x0cc9cdca]
  const ROW_5: seq<bv32> := [
    0x7897ab07, 0x7c56b6b0, 0x71159069, 0x75d48dde, 0x6b93dddb, 0x6f52c06c, 0x6211e6b5, 0x66d0fb02,
    0x5e9f46bf, 0x5a5e5b08, 0x571d7dd1, 0x53dc6066, 0x4d9b3063, 0x495a2dd4, 0x44190b0d, 0x40d816ba]
  const ROW_6: seq<bv32> := [
    0xaca5c697, 0xa864db20, 0xa527fdf9, 0xa1e6e04e, 0xbfa1b04b, 0xbb60adfc, 0xb6238b25, 0xb2e29692,
    0x8aad2b2f, 0x8e6c3698, 0x832f1041, 0x87ee0df6, 0x99a95df3, 0x9d684044, 0x902b669d, 0x94ea7b2a]
  const ROW_7: seq<bv32> := [
    0xe0b41de7, 0xe4750050, 0xe9362689, 0xedf73b3e, 0xf3b06b3b, 0xf771768c, 0xfa325055, 0xfef34de2,
    0xc6bcf05f, 0xc27dede8, 0xcf3ecb31, 0xcbffd686, 0xd5b88683, 0xd1799b34, 0xdc3abded, 0xd8fba05a]
  const ROW_8: seq<bv32> := [
    0x690ce0ee, 0x6dcdfd59, 0x608edb80, 0x644fc637, 0x7a089632, 0x7ec98b85, 0x738aad5c, 0x774bb0eb,
    0x4f040d56, 0x4bc510e1, 0x46863638, 0x42472b8f, 0x5c007b8a, 0x58c1663d, 0x558240e4, 0x51435d53]
  const ROW_9: seq<bv32> := [
    0x251d3b9e, 0x21dc2629, 0x2c9f00f0, 0x285e1d47, 0x36194d42, 0x32d850f5, 0x3f9b762c, 0x3b5a6b9b,
    0x0315d626, 0x07d4cb91, 0x0a97ed48, 0x0e56f0ff, 0x1011a0fa, 0x14d0bd4d, 0x19939b94, 0x1d528623]
  const ROW_A: seq<bv32> := [
    0xf12f560e, 0xf5ee4bb9, 0xf8ad6d60, 0xfc6c70d7, 0xe22b20d2, 0xe6ea3d65, 0xeba91bbc, 0xef68060b,
    0xd727bbb6, 0xd3e6a601, 0xdea580d8, 0xda649d6f, 0xc423cd6a, 0xc0e2d0dd, 0xcda1f604, 0xc960ebb3]
  const ROW_B: seq<bv32> := [
    0xbd3e8d7e, 0xb9ff90c9, 0xb4bcb610, 0xb07daba7, 0xae3afba2, 0xaafbe615, 0xa7b8c0cc, 0xa379dd7b,
    0x9b3660c6, 0x9ff77d71, 0x92b45ba8, 0x9675461f, 0x8832161a, 0x8cf30bad, 0x81b02d74, 0x857130c3]
  const ROW_C: seq<bv32> := [
    0x5d8a9099, 0x594b8d2e, 0x5408abf7, 0x50c9b640, 0x4e8ee645, 0x4a4ffbf2, 0x470cdd2b, 0x43cdc09c,
    0x7b827d21, 0x7f436096, 0x7200464f, 0x76c15bf8, 0x68860bfd, 0x6c47164a, 0x61043093, 0x65c52d24]
  const ROW_D: seq<bv32> := [
    0x119b4be9, 0x155a565e, 0x18197087, 0x1cd86d30, 0x029f3d35, 0x065e2082, 0x0b1d065b, 0x0fdc1bec,
    0x3793a651, 0x3352bbe6, 0x3e119d3f, 0x3ad08088, 0x2497d08d, 0x2056cd3a, 0x2d15ebe3, 0x29d4f654]
  const ROW_E: seq<bv32> := [
    0xc5a92679, 0xc1683bce, 0xcc2b1d17, 0xc8ea00a0, 0xd6ad50a5, 0xd26c4d12, 0xdf2f6bcb, 0xdbee767c,
    0xe3a1cbc1, 0xe760d676, 0xea23f0af, 0xeee2ed18, 0xf0a5bd1d, 0xf464a0aa, 0xf9278673, 0xfde69bc4]
  const ROW_F: seq<bv32> := [
    0x89b8fd09, 0x8d79e0be, 0x803ac667, 0x84fbdbd0, 0x9abc8bd5, 0x9e7d9662, 0x933eb0bb, 0x97ffad0c,
    0xafb010b1, 0xab710d06, 0xa6322bdf, 0xa2f33668, 0xbcb4666d, 0xb8757bda, 0xb5365d03, 0xb1f740b4]

  /** The table entry for a byte value. */
  function Lookup(i: bv8): bv32 {
    if i < 16 then ROW_0[i as int]
    else if i < 32 then ROW_1[i as int - 16]
    else if i < 48 then ROW_2[i as int - 32]
    else if i < 64 then ROW_3[i as int - 48]
    else if i < 80 then ROW_4[i as int - 64]
    else if i < 96 then ROW_5[i as int - 80]
    else if i < 112 then ROW_6[i as int - 96]
    else if i < 128 then ROW_7[i as int - 112]
    else if i < 144 then ROW_8[i as int - 128]
    else if i < 160 then ROW_9[i as int - 144]
    else if i < 176 then ROW_A[i as int - 160]
    else if i < 192 then ROW_B[i as int - 176]
    else if i < 208 then ROW_C[i as int - 192]
    else if i < 224 then ROW_D[i as int - 208]
    else if i < 240 then ROW_E[i as int - 224]
    else ROW_F[i as int - 240]
  }

  lemma {:induction false} Row0(i: bv8)
    requires i < 16
    ensures Lookup(i) == ShiftByte((i as bv32) << 24)
  {
    if i == 0 { return; } if i == 1 { return; } if i == 2 { return; } if i == 3 { return; }
    if i == 4 { return; } if i == 5 { return; } if i == 6 { return; } if i == 7 { return; }
    if i == 8 { return; } if i == 9 { return; } if i == 10 { return; } if i == 11 { return; }
    if i == 12 { return; } if i == 13 { return; } if i == 14 { return; } if i == 15 { return; }
  }

  lemma {:induction false} Row1(i: bv8)
    requires 16 <= i < 32
    ensures Lookup(i) == ShiftByte((i as bv32) << 24)
  {
    if i == 16 { return; } if i == 17 { return; } if i == 18 { return; } if i == 19 { return; }
    if i == 20 { return; } if i == 21 { return; } if i == 22 { return; } if i == 23 { return; }
    if i == 24 { return; } if i == 25 { return; } if i == 26 { return; } if i == 27 { return; }
    if i == 28 { return; } if i == 29 { return; } if i == 30 { return; } if i == 31 { return; }
  }

  lemma {:induction false} Row2(i: bv8)
    requires 32 <= i < 48
    ensures Lookup(i) == ShiftByte((i as bv32) << 24)
  {
    if i == 32 { return; } if i == 33 { return; } if i == 34 { return; } if i == 35 { return; }
    if i == 36 { return; } if i == 37 { return; } if i == 38 { return; } if i == 39 { return; }
    if i == 40 { return; } if i == 41 { return; } if i == 42 { return; } if i == 43 { return; }
    if i == 44 { return; } if i == 45 { return; } if i == 46 { return; } if i == 47 { return; }
  }

  lemma {:induction false} Row3(i: bv8)
    requires 48 <= i < 64
    ensures Lookup(i) == ShiftByte((i as bv32) << 24)
  {
    if i == 48 { return; } if i == 49 { return; } if i == 50 { return; } if i == 51 { return; }
    if i == 52 { return; } if i == 53 { return; } if i == 54 { return; } if i == 55 { return; }
    if i == 56 { return; } if i == 57 { return; } if i == 58 { return; } if i == 59 { return; }
    if i == 60 { return; } if i == 61 { return; } if i == 62 { return; } if i == 63 { return; }
  }

  lemma {:induction false} Row4(i: bv8)
    requires 64 <= i < 80
    ensures Lookup(i) == ShiftByte((i as bv32) << 24)
  {
    if i == 64 { return; } if i == 65 { return; } if i == 66 { return; } if i == 67 { return; }
    if i == 68 { return; } if i == 69 { return; } if i == 70 { return; } if i == 71 { return; }
    if i == 72 { return; } if i == 73 { return; } if i == 74 { return; } if i == 75 { return; }
    if i == 76 { return; } if i == 77 { return; } if i == 78 { return; } if i == 79 { return; }
  }

  lemma {:induction false} Row5(i: bv8)
    requires 80 <= i < 96
    ensures Lookup(i) == ShiftByte((i as bv32) << 24)
  {
    if i == 80 { return; } if i == 81 { return; } if i == 82 { return; } if i == 83 { return; }
    if i == 84 { return; } if i == 85 { return; } if i == 86 { return; } if i == 87 { return; }
    if i == 88 { return; } if i == 89 { return; } if i == 90 { return; } if i == 91 { return; }
    if i == 92 { return; } if i == 93 { return; } if i == 94 { return; } if i == 95 { return; }
  }

  lemma {:induction false} Row6(i: bv8)
    requires 96 <= i < 112
    ensures Lookup(i) == ShiftByte((i as bv32) << 24)
  {
    if i == 96 { return; } if i == 97 { return; } if i == 98 { return; } if i == 99 { return; }
    if i == 100 { return; } if i == 101 { return; } if i == 102 { return; } if i == 103 { return; }
    if i == 104 { return; } if i == 105 { return; } if i == 106 { return; } if i == 107 { return; }
    if i == 108 { return; } if i == 109 { return; } if i == 110 { return; } if i == 111 { return; }
  }

  lemma {:induction false} Row7(i: bv8)
    requires 112 <= i < 128
    ensures Lookup(i) == ShiftByte((i as bv32) << 24)
  {
    if i == 112 { return; } if i == 113 { return; } if i == 114 { return; } if i == 115 { return; }
    if i == 116 { return; } if i == 117 { return; } if i == 118 { return; } if i == 119 { return; }
    if i == 120 { return; } if i == 121 { return; } if i == 122 { return; } if i == 123 { return; }
    if i == 124 { return; } if i == 125 { return; } if i == 126 { return; } if i == 127 { return; }
  }

  lemma {:induction false} Row8(i: bv8)
    requires 128 <= i < 144
    ensures Lookup(i) == ShiftByte((i as bv32) << 24)
  {
    if i == 128 { return; } if i == 129 { return; } if i == 130 { return; } if i == 131 { return; }
    if i == 132 { return; } if i == 133 { return; } if i == 134 { return; } if i == 135 { return; }
    if i == 136 { return; } if i == 137 { return; } if i == 138 { return; } if i == 139 { return; }
    if i == 140 { return; } if i == 141 { return; } if i == 142 { return; } if i == 143 { return; }
  }

  lemma {:induction false} Row9(i: bv8)
    requires 144 <= i < 160
    ensures Lookup(i) == ShiftByte((i as bv32) << 24)
  {
    if i == 144 { return; } if i == 145 { return; } if i == 146 { return; } if i == 147 { return; }
    if i == 148 { return; } if i == 149 { return; } if i == 150 { return; } if i == 151 { return; }
    if i == 152 { return; } if i == 153 { return; } if i == 154 { return; } if i == 155 { return; }
    if i == 156 { return; } if i == 157 { return; } if i == 158 { return; } if i == 159 { return; }
  }

  lemma {:induction false} RowA(i: bv8)
    requires 160 <= i < 176
    ensures Lookup(i) == ShiftByte((i as bv32) << 24)
  {
    if i == 160 { return; } if i == 161 { return; } if i == 162 { return; } if i == 163 { return; }
    if i == 164 { return; } if i == 165 { return; } if i == 166 { return; } if i == 167 { return; }
    if i == 168 { return; } if i == 169 { return; } if i == 170 { return; } if i == 171 { return; }
    if i == 172 { return; } if i == 173 { return; } if i == 174 { return; } if i == 175 { return; }
  }

  lemma {:induction false} RowB(i: bv8)
    requires 176 <= i < 192
    ensures Lookup(i) == ShiftByte((i as bv32) << 24)
  {
    if i == 176 { return; } if i == 177 { return; } if i == 178 { return; } if i == 179 { return; }
    if i == 180 { return; } if i == 181 { return; } if i == 182 { return; } if i == 183 { return; }
    if i == 184 { return; } if i == 185 { return; } if i == 186 { return; } if i == 187 { return; }
    if i == 188 { return; } if i == 189 { return; } if i == 190 { return; } if i == 191 { return; }
  }

  lemma {:induction false} RowC(i: bv8)
    requires 192 <= i < 208
    ensures Lookup(i) == ShiftByte((i as bv32) << 24)
  {
    if i == 192 { return; } if i == 193 { return; } if i == 194 { return; } if i == 195 { return; }
    if i == 196 { return; } if i == 197 { return; } if i == 198 { return; } if i == 199 { return; }
    if i == 200 { return; } if i == 201 { return; } if i == 202 { return; } if i == 203 { return; }
    if i == 204 { return; } if i == 205 { return; } if i == 206 { return; } if i == 207 { return; }
  }

  lemma {:induction false} RowD(i: bv8)
    requires 208 <= i < 224
    ensures Lookup(i) == ShiftByte((i as bv32) << 24)
  {
    if i == 208 { return; } if i == 209 { return; } if i == 210 { return; } if i == 211 { return; }
    if i == 212 { return; } if i == 213 { return; } if i == 214 { return; } if i == 215 { return; }
    if i == 216 { return; } if i == 217 { return; } if i == 218 { return; } if i == 219 { return; }
    if i == 220 { return; } if i == 221 { return; } if i == 222 { return; } if i == 223 { return; }
  }

  lemma {:induction false} RowE(i: bv8)
    requires 224 <= i < 240
    ensures Lookup(i) == ShiftByte((i as bv32) << 24)
  {
    if i == 224 { return; } if i == 225 { return; } if i == 226 { return; } if i == 227 { return; }
    if i == 228 { return; } if i == 229 { return; } if i == 230 { return; } if i == 231 { return; }
    if i == 232 { return; } if i == 233 { return; } if i == 234 { return; } if i == 235 { return; }
    if i == 236 { return; } if i == 237 { return; } if i == 238 { return; } if i == 239 { return; }
  }

  lemma {:induction false} RowF(i: bv8)
    requires 240 <= i
    ensures Lookup(i) == ShiftByte((i as bv32) << 24)
  {
    if i == 240 { return; } if i == 241 { return; } if i == 242 { return; } if i == 243 { return; }
    if i == 244 { return; } if i == 245 { return; } if i == 246 { return; } if i == 247 { return; }
    if i == 248 { return; } if i == 249 { return; } if i == 250 { return; } if i == 251 { return; }
    if i == 252 { return; } if i == 253 { return; } if i == 254 { return; } if i == 255 { return; }
  }

  lemma {:induction false} TableEntry(i: bv8)
    ensures Lookup(i) == ShiftByte((i as bv32) << 24)
  {
    if
    case i < 16 => Row0(i);
    case 16 <= i < 32 => Row1(i);
    case 32 <= i < 48 => Row2(i);
    case 48 <= i < 64 => Row3(i);
    case 64 <= i < 80 => Row4(i);
    case 80 <= i < 96 => Row5(i);
    case 96 <= i < 112 => Row6(i);
    case 112 <= i < 128 => Row7(i);
    case 128 <= i < 144 => Row8(i);
    case 144 <= i < 160 => Row9(i);
    case 160 <= i < 176 => RowA(i);
    case 176 <= i < 192 => RowB(i);
    case 192 <= i < 208 => RowC(i);
    case 208 <= i < 224 => RowD(i);
    case 224 <= i < 240 => RowE(i);
    case 240 <= i => RowF(i);
  }
}

/** The page checksum: the direct-table loop computes the bit-serial checksum. */
module OggCrc {
  import opened Bytes
  import opened CrcGenerator
  import opened CrcTable

  /** A byte as a 32-bit word. */
  function Word(b: byte): (w: bv32)
    ensures w < 256
  {
    (b as bv8) as bv32
  }

  /** Register r with byte b added at the top: what the bit-serial form shifts out. */
  function Absorb(r: bv32, b: byte): bv32 {
    Xor(r, Word(b) << 24)
  }

  /** The bit-serial checksum of data, continued from register r. */
  function SerialCrc(r: bv32, data: seq<byte>): bv32
    decreases |data|
  {
    if data == [] then r else SerialCrc(ShiftByte(Absorb(r, data[0])), data[1..])
  }

  /** The table index that the direct-table loop uses. */
  function Index(r: bv32, b: byte): bv8 {
    (((r >> 24) & 0xff) ^ Word(b)) as bv8
  }

  /** One step of the direct-table loop. */
  function TableStep(r: bv32, b: byte): bv32 {
    Xor(r << 8, Lookup(Index(r, b)))
  }

  function TopByte(i: bv8): bv32 {
    (i as bv32) << 24
  }

  function LowBytes(r: bv32): bv32 {
    r & 0x00ffffff
  }

  // Adding byte b changes only the top byte of r.
  lemma {:induction false} AbsorbSplits(r: bv32, b: byte)
    ensures Absorb(r, b) == Xor(TopByte(Index(r, b)), LowBytes(r))
  {
    TopByteSplits(r, Word(b));
  }

  lemma {:induction false} TopByteSplits(r: bv32, w: bv32)
    requires w < 256
    ensures ((r >> 24) & 0xff) ^ w < 256
    ensures Xor(r, w << 24) == Xor(TopByte((((r >> 24) & 0xff) ^ w) as bv8), LowBytes(r))
  {
    IndexFits(r, w);
    RegisterSplits(r, w);
    BackFromByte(((r >> 24) & 0xff) ^ w);
  }

  lemma {:induction false} IndexFits(r: bv32, w: bv32)
    requires w < 256
    ensures ((r >> 24) & 0xff) ^ w < 256
  {
  }

  lemma {:induction false} RegisterSplits(r: bv32, w: bv32)
    ensures Xor(r, w << 24) == Xor((((r >> 24) & 0xff) ^ w) << 24, LowBytes(r))
  {
    TopAndLow(r);
    ShiftOfXor((r >> 24) & 0xff, w);
    XorSwap(((r >> 24) & 0xff) << 24, LowBytes(r), w << 24);
  }

  lemma {:induction false} TopAndLow(r: bv32)
    ensures r == Xor(((r >> 24) & 0xff) << 24, LowBytes(r))
  {
  }

  lemma {:induction false} ShiftOfXor(a: bv32, b: bv32)
    ensures Xor(a, b) << 24 == Xor(a << 24, b << 24)
  {
  }

  lemma {:induction false} XorSwap(a: bv32, b: bv32, c: bv32)
    ensures Xor(Xor(a, b), c) == Xor(Xor(a, c), b)
  {
    hide Xor;
    XorAssociates(a, b, c);
    XorCommutes(b, c);
    XorAssociates(a, c, b);
  }

  lemma {:induction false} XorAssociates(a: bv32, b: bv32, c: bv32)
    ensures Xor(Xor(a, b), c) == Xor(a, Xor(b, c))
  {
  }

  lemma {:induction false} BackFromByte(x: bv32)
    requires x < 256
    ensures (x as bv8) as bv32 == x
  {
  }

  lemma {:induction false} LowBytesAreLow(r: bv32)
    ensures LowBytes(r) & 0xff000000 == 0 && LowBytes(r) << 8 == r << 8
  {
  }

  lemma {:induction false} XorCommutes(x: bv32, y: bv32)
    ensures Xor(x, y) == Xor(y, x)
  {
  }

  lemma {:induction false} LowBytesMove(r: bv32)
    ensures ShiftLeft4(ShiftLeft4(LowBytes(r))) == r << 8
  {
    hide ShiftLeft4;
    ShiftLeft4Twice(LowBytes(r));
    LowBytesAreLow(r);
  }

  lemma {:induction false} ShiftByteOfParts(t: bv32, r: bv32)
    ensures ShiftByte(Xor(t, LowBytes(r))) == Xor(ShiftByte(t), ShiftLeft4(ShiftLeft4(LowBytes(r))))
  {
    hide LowBytes, ShiftByte, ShiftLeft4, Xor;
    LowBytesAreLow(r);
    ShiftByteOfLowSum(t, LowBytes(r));
  }

  lemma {:induction false} TopByteEntry(i: bv8)
    ensures Lookup(i) == ShiftByte(TopByte(i))
  {
    hide Lookup, ShiftByte;
    TableEntry(i);
  }

  /** Eight steps on a register: those of its top byte are in the table, the other bytes move up. */
  lemma {:induction false} ShiftByteByTable(i: bv8, r: bv32)
    ensures ShiftByte(Xor(TopByte(i), LowBytes(r))) == Xor(Lookup(i), r << 8)
  {
    hide *;
    ShiftByteOfParts(TopByte(i), r);
    LowBytesMove(r);
    TopByteEntry(i);
  }

  /** One table step is eight bit-serial steps on the register with the byte added. */
  lemma {:induction false} TableStepIsSerial(r: bv32, b: byte)
    ensures TableStep(r, b) == ShiftByte(Absorb(r, b))
  {
    hide Absorb, Index, TopByte, LowBytes, Lookup, ShiftByte, Xor;
    AbsorbSplits(r, b);
    ShiftByteByTable(Index(r, b), r);
    XorCommutes(r << 8, Lookup(Index(r, b)));
  }

  /** The checksum register after data, from a register of zero. */
  function Crc(data: seq<byte>): bv32 {
    SerialCrc(0, data)
  }

  lemma {:induction false} SerialCrcConcat(r: bv32, a: seq<byte>, b: seq<byte>)
    ensures SerialCrc(r, a + b) == SerialCrc(SerialCrc(r, a), b)
    decreases |a|
  {
    if a == [] {
      assert a + b == b;
    } else {
      assert (a + b)[1..] == a[1..] + b;
      SerialCrcConcat(ShiftByte(Absorb(r, a[0])), a[1..], b);
    }
  }

  /** The direct-table loop over a buffer, continued from register r: it computes the bit-serial checksum. */
  method TableCrc(r: bv32, data: seq<byte>) returns (crc: bv32)
    ensures crc == SerialCrc(r, data)
  {
    crc := r;
    for i := 0 to |data|
      invariant crc == SerialCrc(r, data[..i])
    {
      TableStepIsSerial(crc, data[i]);
      assert data[..i + 1] == data[..i] + [data[i]];
      SerialCrcConcat(r, data[..i], [data[i]]);
      crc := TableStep(crc, data[i]);
    }
    assert data[..|data|] == data;
  }
}
