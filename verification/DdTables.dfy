// dd.c: the tables of the character conversions.
module DdTables {
  import opened Common

  const BLANK: Byte := 32
  const NEWLINE: Byte := 10
  const CARET: Byte := 94
  const TILDE: Byte := 126

  // EBCDIC to ASCII, eight characters a row
  function EtoaRow(row: nat): (codes: seq<Byte>)
    requires row < 32
    ensures |codes| == 8
  {
    match row
    case 0 => [0, 1, 2, 3, 156, 9, 134, 127]
    case 1 => [151, 141, 142, 11, 12, 13, 14, 15]
    case 2 => [16, 17, 18, 19, 157, 133, 8, 135]
    case 3 => [24, 25, 146, 143, 28, 29, 30, 31]
    case 4 => [128, 129, 130, 131, 132, 10, 23, 27]
    case 5 => [136, 137, 138, 139, 140, 5, 6, 7]
    case 6 => [144, 145, 22, 147, 148, 149, 150, 4]
    case 7 => [152, 153, 154, 155, 20, 21, 158, 26]
    case 8 => [32, 160, 161, 162, 163, 164, 165, 166]
    case 9 => [167, 168, 213, 46, 60, 40, 43, 124]
    case 10 => [38, 169, 170, 171, 172, 173, 174, 175]
    case 11 => [176, 177, 33, 36, 42, 41, 59, 126]
    case 12 => [45, 47, 178, 179, 180, 181, 182, 183]
    case 13 => [184, 185, 203, 44, 37, 95, 62, 63]
    case 14 => [186, 187, 188, 189, 190, 191, 192, 193]
    case 15 => [194, 96, 58, 35, 64, 39, 61, 34]
    case 16 => [195, 97, 98, 99, 100, 101, 102, 103]
    case 17 => [104, 105, 196, 197, 198, 199, 200, 201]
    case 18 => [202, 106, 107, 108, 109, 110, 111, 112]
    case 19 => [113, 114, 94, 204, 205, 206, 207, 208]
    case 20 => [209, 229, 115, 116, 117, 118, 119, 120]
    case 21 => [121, 122, 210, 211, 212, 91, 214, 215]
    case 22 => [216, 217, 218, 219, 220, 221, 222, 223]
    case 23 => [224, 225, 226, 227, 228, 93, 230, 231]
    case 24 => [123, 65, 66, 67, 68, 69, 70, 71]
    case 25 => [72, 73, 232, 233, 234, 235, 236, 237]
    case 26 => [125, 74, 75, 76, 77, 78, 79, 80]
    case 27 => [81, 82, 238, 239, 240, 241, 242, 243]
    case 28 => [92, 159, 83, 84, 85, 86, 87, 88]
    case 29 => [89, 90, 244, 245, 246, 247, 248, 249]
    case 30 => [48, 49, 50, 51, 52, 53, 54, 55]
    case _ => [56, 57, 250, 251, 252, 253, 254, 255]
  }

  function EtoaAt(c: Byte): Byte {
    EtoaRow(c / 8)[c % 8]
  }

  function Etoa(): (table: seq<Byte>)
    ensures |table| == 256 && forall c: Byte :: table[c] == EtoaAt(c)
  {
    seq(256, c requires 0 <= c < 256 => EtoaAt(c))
  }

  // ASCII to EBCDIC
  function AtoeRow(row: nat): (codes: seq<Byte>)
    requires row < 32
    ensures |codes| == 8
  {
    match row
    case 0 => [0, 1, 2, 3, 55, 45, 46, 47]
    case 1 => [22, 5, 37, 11, 12, 13, 14, 15]
    case 2 => [16, 17, 18, 19, 60, 61, 50, 38]
    case 3 => [24, 25, 63, 39, 28, 29, 30, 31]
    case 4 => [64, 90, 127, 123, 91, 108, 80, 125]
    case 5 => [77, 93, 92, 78, 107, 96, 75, 97]
    case 6 => [240, 241, 242, 243, 244, 245, 246, 247]
    case 7 => [248, 249, 122, 94, 76, 126, 110, 111]
    case 8 => [124, 193, 194, 195, 196, 197, 198, 199]
    case 9 => [200, 201, 209, 210, 211, 212, 213, 214]
    case 10 => [215, 216, 217, 226, 227, 228, 229, 230]
    case 11 => [231, 232, 233, 173, 224, 189, 154, 109]
    case 12 => [121, 129, 130, 131, 132, 133, 134, 135]
    case 13 => [136, 137, 145, 146, 147, 148, 149, 150]
    case 14 => [151, 152, 153, 162, 163, 164, 165, 166]
    case 15 => [167, 168, 169, 192, 79, 208, 95, 7]
    case 16 => [32, 33, 34, 35, 36, 21, 6, 23]
    case 17 => [40, 41, 42, 43, 44, 9, 10, 27]
    case 18 => [48, 49, 26, 51, 52, 53, 54, 11]
    case 19 => [56, 57, 58, 59, 4, 20, 62, 225]
    case 20 => [65, 66, 67, 68, 69, 70, 71, 72]
    case 21 => [73, 81, 82, 83, 84, 85, 86, 87]
    case 22 => [88, 89, 98, 99, 100, 101, 102, 103]
    case 23 => [104, 105, 112, 113, 114, 115, 116, 117]
    case 24 => [118, 119, 120, 128, 138, 139, 140, 141]
    case 25 => [142, 143, 144, 106, 155, 156, 157, 158]
    case 26 => [159, 160, 170, 171, 172, 74, 174, 175]
    case 27 => [176, 177, 178, 179, 180, 181, 182, 183]
    case 28 => [184, 185, 186, 187, 188, 161, 190, 191]
    case 29 => [202, 203, 204, 205, 206, 207, 218, 219]
    case 30 => [220, 221, 222, 223, 234, 235, 236, 237]
    case _ => [238, 239, 250, 251, 252, 253, 254, 255]
  }

  function AtoeAt(c: Byte): Byte {
    AtoeRow(c / 8)[c % 8]
  }

  function Atoe(): (table: seq<Byte>)
    ensures |table| == 256 && forall c: Byte :: table[c] == AtoeAt(c)
  {
    seq(256, c requires 0 <= c < 256 => AtoeAt(c))
  }

  // ASCII to EBCDIC as IBM has it
  function AtoibmRow(row: nat): (codes: seq<Byte>)
    requires row < 32
    ensures |codes| == 8
  {
    match row
    case 0 => [0, 1, 2, 3, 55, 45, 46, 47]
    case 1 => [22, 5, 37, 11, 12, 13, 14, 15]
    case 2 => [16, 17, 18, 19, 60, 61, 50, 38]
    case 3 => [24, 25, 63, 39, 28, 29, 30, 31]
    case 4 => [64, 90, 127, 123, 91, 108, 80, 125]
    case 5 => [77, 93, 92, 78, 107, 96, 75, 97]
    case 6 => [240, 241, 242, 243, 244, 245, 246, 247]
    case 7 => [248, 249, 122, 94, 76, 126, 110, 111]
    case 8 => [124, 193, 194, 195, 196, 197, 198, 199]
    case 9 => [200, 201, 209, 210, 211, 212, 213, 214]
    case 10 => [215, 216, 217, 226, 227, 228, 229, 230]
    case 11 => [231, 232, 233, 173, 224, 189, 95, 109]
    case 12 => [121, 129, 130, 131, 132, 133, 134, 135]
    case 13 => [136, 137, 145, 146, 147, 148, 149, 150]
    case 14 => [151, 152, 153, 162, 163, 164, 165, 166]
    case 15 => [167, 168, 169, 192, 79, 208, 161, 7]
    case 16 => [32, 33, 34, 35, 36, 21, 6, 23]
    case 17 => [40, 41, 42, 43, 44, 9, 10, 27]
    case 18 => [48, 49, 26, 51, 52, 53, 54, 8]
    case 19 => [56, 57, 58, 59, 4, 20, 62, 225]
    case 20 => [65, 66, 67, 68, 69, 70, 71, 72]
    case 21 => [73, 81, 82, 83, 84, 85, 86, 87]
    case 22 => [88, 89, 98, 99, 100, 101, 102, 103]
    case 23 => [104, 105, 112, 113, 114, 115, 116, 117]
    case 24 => [118, 119, 120, 128, 138, 139, 140, 141]
    case 25 => [142, 143, 144, 154, 155, 156, 157, 158]
    case 26 => [159, 160, 170, 171, 172, 173, 174, 175]
    case 27 => [176, 177, 178, 179, 180, 181, 182, 183]
    case 28 => [184, 185, 186, 187, 188, 189, 190, 191]
    case 29 => [202, 203, 204, 205, 206, 207, 218, 219]
    case 30 => [220, 221, 222, 223, 234, 235, 236, 237]
    case _ => [238, 239, 250, 251, 252, 253, 254, 255]
  }

  function AtoibmAt(c: Byte): Byte {
    AtoibmRow(c / 8)[c % 8]
  }

  function Atoibm(): (table: seq<Byte>)
    ensures |table| == 256 && forall c: Byte :: table[c] == AtoibmAt(c)
  {
    seq(256, c requires 0 <= c < 256 => AtoibmAt(c))
  }

  predicate Back(table: seq<Byte>, c: Byte)
    requires |table| == 256
  {
    Etoa()[table[c]] == c
  }

  // The standard table loses one character of the 256, IBM's five.
  predicate ReturnsRight(c: Byte) {
    (Back(Atoe(), c) <==> c != 151) && (Back(Atoibm(), c) <==> c !in {94, 126, 203, 213, 229})
  }

  lemma Row0(c: Byte)
    requires 0 <= c < 8
    ensures ReturnsRight(c)
  {
  }

  lemma Row1(c: Byte)
    requires 8 <= c < 16
    ensures ReturnsRight(c)
  {
  }

  lemma Row2(c: Byte)
    requires 16 <= c < 24
    ensures ReturnsRight(c)
  {
  }

  lemma Row3(c: Byte)
    requires 24 <= c < 32
    ensures ReturnsRight(c)
  {
  }

  lemma Row4(c: Byte)
    requires 32 <= c < 40
    ensures ReturnsRight(c)
  {
  }

  lemma Row5(c: Byte)
    requires 40 <= c < 48
    ensures ReturnsRight(c)
  {
  }

  lemma Row6(c: Byte)
    requires 48 <= c < 56
    ensures ReturnsRight(c)
  {
  }

  lemma Row7(c: Byte)
    requires 56 <= c < 64
    ensures ReturnsRight(c)
  {
  }

  lemma Row8(c: Byte)
    requires 64 <= c < 72
    ensures ReturnsRight(c)
  {
  }

  lemma Row9(c: Byte)
    requires 72 <= c < 80
    ensures ReturnsRight(c)
  {
  }

  lemma Row10(c: Byte)
    requires 80 <= c < 88
    ensures ReturnsRight(c)
  {
  }

  lemma Row11(c: Byte)
    requires 88 <= c < 96
    ensures ReturnsRight(c)
  {
  }

  lemma Row12(c: Byte)
    requires 96 <= c < 104
    ensures ReturnsRight(c)
  {
  }

  lemma Row13(c: Byte)
    requires 104 <= c < 112
    ensures ReturnsRight(c)
  {
  }

  lemma Row14(c: Byte)
    requires 112 <= c < 120
    ensures ReturnsRight(c)
  {
  }

  lemma Row15(c: Byte)
    requires 120 <= c < 128
    ensures ReturnsRight(c)
  {
  }

  lemma Row16(c: Byte)
    requires 128 <= c < 136
    ensures ReturnsRight(c)
  {
  }

  lemma Row17(c: Byte)
    requires 136 <= c < 144
    ensures ReturnsRight(c)
  {
  }

  lemma Row18(c: Byte)
    requires 144 <= c < 152
    ensures ReturnsRight(c)
  {
  }

  lemma Row19(c: Byte)
    requires 152 <= c < 160
    ensures ReturnsRight(c)
  {
  }

  lemma Row20(c: Byte)
    requires 160 <= c < 168
    ensures ReturnsRight(c)
  {
  }

  lemma Row21(c: Byte)
    requires 168 <= c < 176
    ensures ReturnsRight(c)
  {
  }

  lemma Row22(c: Byte)
    requires 176 <= c < 184
    ensures ReturnsRight(c)
  {
  }

  lemma Row23(c: Byte)
    requires 184 <= c < 192
    ensures ReturnsRight(c)
  {
  }

  lemma Row24(c: Byte)
    requires 192 <= c < 200
    ensures ReturnsRight(c)
  {
  }

  lemma Row25(c: Byte)
    requires 200 <= c < 208
    ensures ReturnsRight(c)
  {
  }

  lemma Row26(c: Byte)
    requires 208 <= c < 216
    ensures ReturnsRight(c)
  {
  }

  lemma Row27(c: Byte)
    requires 216 <= c < 224
    ensures ReturnsRight(c)
  {
  }

  lemma Row28(c: Byte)
    requires 224 <= c < 232
    ensures ReturnsRight(c)
  {
  }

  lemma Row29(c: Byte)
    requires 232 <= c < 240
    ensures ReturnsRight(c)
  {
  }

  lemma Row30(c: Byte)
    requires 240 <= c < 248
    ensures ReturnsRight(c)
  {
  }

  lemma Row31(c: Byte)
    requires 248 <= c < 256
    ensures ReturnsRight(c)
  {
  }

  // Back to ASCII, every character but one is what it was, and every 7-bit character; with IBM's
  // table all but five are, of which the caret and the tilde are 7-bit characters.
  lemma AllBack(c: Byte)
    ensures ReturnsRight(c)
  {
    match c / 8
    case 0 => Row0(c);
    case 1 => Row1(c);
    case 2 => Row2(c);
    case 3 => Row3(c);
    case 4 => Row4(c);
    case 5 => Row5(c);
    case 6 => Row6(c);
    case 7 => Row7(c);
    case 8 => Row8(c);
    case 9 => Row9(c);
    case 10 => Row10(c);
    case 11 => Row11(c);
    case 12 => Row12(c);
    case 13 => Row13(c);
    case 14 => Row14(c);
    case 15 => Row15(c);
    case 16 => Row16(c);
    case 17 => Row17(c);
    case 18 => Row18(c);
    case 19 => Row19(c);
    case 20 => Row20(c);
    case 21 => Row21(c);
    case 22 => Row22(c);
    case 23 => Row23(c);
    case 24 => Row24(c);
    case 25 => Row25(c);
    case 26 => Row26(c);
    case 27 => Row27(c);
    case 28 => Row28(c);
    case 29 => Row29(c);
    case 30 => Row30(c);
    case 31 => Row31(c);
  }

  lemma SevenBitBack(c: Byte)
    requires c < 128
    ensures Back(Atoe(), c) && (Back(Atoibm(), c) <==> c != CARET && c != TILDE)
  {
    AllBack(c);
  }
}
