/**
 The lookup tables of lib/modp_b64_data.h, and what each entry means in terms of the
 alphabet of section 4 of RFC 4648.  Characters are their ASCII codes.
 */
module Base64Tables {
  type Octet = bv8
  type Quad = bv32

  const PAD: Octet := 61
  const BADCHAR: Quad := 0x01ffffff

  // ---------- Table 1 of RFC 4648 ----------

  predicate InAlphabet(c: Octet) {
    65 <= c <= 90 || 97 <= c <= 122 || 48 <= c <= 57 || c == 43 || c == 47
  }

  /** The value of an alphabet character: A-Z, a-z, 0-9, +, /. */
  function Value(c: Octet): Octet {
    if 65 <= c <= 90 then c - 65 else if 97 <= c <= 122 then c - 71 else if 48 <= c <= 57 then c + 4
    else if c == 43 then 62 else 63
  }

  function Symbol(v: Octet): Octet {
    if v < 26 then v + 65 else if v < 52 then v + 71 else if v < 62 then v - 4 else if v == 62 then 43 else 47
  }

  lemma ValueOfSymbol(v: Octet)
    requires v < 64
    ensures InAlphabet(Symbol(v)) && Value(Symbol(v)) == v
  {
  }

  lemma SymbolOfValue(c: Octet)
    requires InAlphabet(c)
    ensures Value(c) < 64 && Symbol(Value(c)) == c
  {
  }

  // ---------- Encoding tables ----------

  function E0Part0(t: Octet): Octet {
    match t
    case 0 => 65 case 1 => 65 case 2 => 65 case 3 => 65 case 4 => 66 case 5 => 66 case 6 => 66 case 7 => 66
    case 8 => 67 case 9 => 67 case 10 => 67 case 11 => 67 case 12 => 68 case 13 => 68 case 14 => 68 case 15 => 68
    case 16 => 69 case 17 => 69 case 18 => 69 case 19 => 69 case 20 => 70 case 21 => 70 case 22 => 70 case 23 => 70
    case 24 => 71 case 25 => 71 case 26 => 71 case 27 => 71 case 28 => 72 case 29 => 72 case 30 => 72
    case _ => 72
  }

  function E0Part1(t: Octet): Octet {
    match t
    case 32 => 73 case 33 => 73 case 34 => 73 case 35 => 73 case 36 => 74 case 37 => 74 case 38 => 74 case 39 => 74
    case 40 => 75 case 41 => 75 case 42 => 75 case 43 => 75 case 44 => 76 case 45 => 76 case 46 => 76 case 47 => 76
    case 48 => 77 case 49 => 77 case 50 => 77 case 51 => 77 case 52 => 78 case 53 => 78 case 54 => 78 case 55 => 78
    case 56 => 79 case 57 => 79 case 58 => 79 case 59 => 79 case 60 => 80 case 61 => 80 case 62 => 80
    case _ => 80
  }

  function E0Part2(t: Octet): Octet {
    match t
    case 64 => 81 case 65 => 81 case 66 => 81 case 67 => 81 case 68 => 82 case 69 => 82 case 70 => 82 case 71 => 82
    case 72 => 83 case 73 => 83 case 74 => 83 case 75 => 83 case 76 => 84 case 77 => 84 case 78 => 84 case 79 => 84
    case 80 => 85 case 81 => 85 case 82 => 85 case 83 => 85 case 84 => 86 case 85 => 86 case 86 => 86 case 87 => 86
    case 88 => 87 case 89 => 87 case 90 => 87 case 91 => 87 case 92 => 88 case 93 => 88 case 94 => 88
    case _ => 88
  }

  function E0Part3(t: Octet): Octet {
    match t
    case 96 => 89 case 97 => 89 case 98 => 89 case 99 => 89 case 100 => 90 case 101 => 90 case 102 => 90 case 103 => 90
    case 104 => 97 case 105 => 97 case 106 => 97 case 107 => 97 case 108 => 98 case 109 => 98 case 110 => 98 case 111 => 98
    case 112 => 99 case 113 => 99 case 114 => 99 case 115 => 99 case 116 => 100 case 117 => 100 case 118 => 100 case 119 => 100
    case 120 => 101 case 121 => 101 case 122 => 101 case 123 => 101 case 124 => 102 case 125 => 102 case 126 => 102
    case _ => 102
  }

  function E0Part4(t: Octet): Octet {
    match t
    case 128 => 103 case 129 => 103 case 130 => 103 case 131 => 103 case 132 => 104 case 133 => 104 case 134 => 104 case 135 => 104
    case 136 => 105 case 137 => 105 case 138 => 105 case 139 => 105 case 140 => 106 case 141 => 106 case 142 => 106 case 143 => 106
    case 144 => 107 case 145 => 107 case 146 => 107 case 147 => 107 case 148 => 108 case 149 => 108 case 150 => 108 case 151 => 108
    case 152 => 109 case 153 => 109 case 154 => 109 case 155 => 109 case 156 => 110 case 157 => 110 case 158 => 110
    case _ => 110
  }

  function E0Part5(t: Octet): Octet {
    match t
    case 160 => 111 case 161 => 111 case 162 => 111 case 163 => 111 case 164 => 112 case 165 => 112 case 166 => 112 case 167 => 112
    case 168 => 113 case 169 => 113 case 170 => 113 case 171 => 113 case 172 => 114 case 173 => 114 case 174 => 114 case 175 => 114
    case 176 => 115 case 177 => 115 case 178 => 115 case 179 => 115 case 180 => 116 case 181 => 116 case 182 => 116 case 183 => 116
    case 184 => 117 case 185 => 117 case 186 => 117 case 187 => 117 case 188 => 118 case 189 => 118 case 190 => 118
    case _ => 118
  }

  function E0Part6(t: Octet): Octet {
    match t
    case 192 => 119 case 193 => 119 case 194 => 119 case 195 => 119 case 196 => 120 case 197 => 120 case 198 => 120 case 199 => 120
    case 200 => 121 case 201 => 121 case 202 => 121 case 203 => 121 case 204 => 122 case 205 => 122 case 206 => 122 case 207 => 122
    case 208 => 48 case 209 => 48 case 210 => 48 case 211 => 48 case 212 => 49 case 213 => 49 case 214 => 49 case 215 => 49
    case 216 => 50 case 217 => 50 case 218 => 50 case 219 => 50 case 220 => 51 case 221 => 51 case 222 => 51
    case _ => 51
  }

  function E0Part7(t: Octet): Octet {
    match t
    case 224 => 52 case 225 => 52 case 226 => 52 case 227 => 52 case 228 => 53 case 229 => 53 case 230 => 53 case 231 => 53
    case 232 => 54 case 233 => 54 case 234 => 54 case 235 => 54 case 236 => 55 case 237 => 55 case 238 => 55 case 239 => 55
    case 240 => 56 case 241 => 56 case 242 => 56 case 243 => 56 case 244 => 57 case 245 => 57 case 246 => 57 case 247 => 57
    case 248 => 43 case 249 => 43 case 250 => 43 case 251 => 43 case 252 => 47 case 253 => 47 case 254 => 47
    case _ => 47
  }

  function E0(t: Octet): Octet {
    if t < 32 then E0Part0(t)
    else if t < 64 then E0Part1(t)
    else if t < 96 then E0Part2(t)
    else if t < 128 then E0Part3(t)
    else if t < 160 then E0Part4(t)
    else if t < 192 then E0Part5(t)
    else if t < 224 then E0Part6(t)
    else E0Part7(t)
  }

  function AlphabetLow(t: Octet): Octet {
    match t
    case 0 => 65 case 1 => 66 case 2 => 67 case 3 => 68 case 4 => 69 case 5 => 70 case 6 => 71 case 7 => 72
    case 8 => 73 case 9 => 74 case 10 => 75 case 11 => 76 case 12 => 77 case 13 => 78 case 14 => 79 case 15 => 80
    case 16 => 81 case 17 => 82 case 18 => 83 case 19 => 84 case 20 => 85 case 21 => 86 case 22 => 87 case 23 => 88
    case 24 => 89 case 25 => 90 case 26 => 97 case 27 => 98 case 28 => 99 case 29 => 100 case 30 => 101
    case _ => 102
  }

  function AlphabetHigh(t: Octet): Octet {
    match t
    case 32 => 103 case 33 => 104 case 34 => 105 case 35 => 106 case 36 => 107 case 37 => 108 case 38 => 109 case 39 => 110
    case 40 => 111 case 41 => 112 case 42 => 113 case 43 => 114 case 44 => 115 case 45 => 116 case 46 => 117 case 47 => 118
    case 48 => 119 case 49 => 120 case 50 => 121 case 51 => 122 case 52 => 48 case 53 => 49 case 54 => 50 case 55 => 51
    case 56 => 52 case 57 => 53 case 58 => 54 case 59 => 55 case 60 => 56 case 61 => 57 case 62 => 43
    case _ => 47
  }

  function Alphabet(t: Octet): Octet {
    if t < 32 then AlphabetLow(t) else AlphabetHigh(t)
  }

  /** e1 and e2: the alphabet, four times over. */
  function E1(t: Octet): Octet {
    Alphabet(t & 63)
  }

  function E2(t: Octet): Octet {
    Alphabet(t & 63)
  }

  lemma E0Part0Means(t: Octet)
    requires t <= 31
    ensures E0Part0(t) == Symbol(t >> 2)
  {
  }

  lemma E0Part1Means(t: Octet)
    requires 32 <= t <= 63
    ensures E0Part1(t) == Symbol(t >> 2)
  {
  }

  lemma E0Part2Means(t: Octet)
    requires 64 <= t <= 95
    ensures E0Part2(t) == Symbol(t >> 2)
  {
  }

  lemma E0Part3Means(t: Octet)
    requires 96 <= t <= 127
    ensures E0Part3(t) == Symbol(t >> 2)
  {
  }

  lemma E0Part4Means(t: Octet)
    requires 128 <= t <= 159
    ensures E0Part4(t) == Symbol(t >> 2)
  {
  }

  lemma E0Part5Means(t: Octet)
    requires 160 <= t <= 191
    ensures E0Part5(t) == Symbol(t >> 2)
  {
  }

  lemma E0Part6Means(t: Octet)
    requires 192 <= t <= 223
    ensures E0Part6(t) == Symbol(t >> 2)
  {
  }

  lemma E0Part7Means(t: Octet)
    requires 224 <= t
    ensures E0Part7(t) == Symbol(t >> 2)
  {
  }

  lemma E0Means(t: Octet)
    ensures E0(t) == Symbol(t >> 2)
  {
    hide E0Part0, E0Part1, E0Part2, E0Part3, E0Part4, E0Part5, E0Part6, E0Part7, Symbol;
    if t < 32 {
      E0Part0Means(t);
    } else if t < 64 {
      E0Part1Means(t);
    } else if t < 96 {
      E0Part2Means(t);
    } else if t < 128 {
      E0Part3Means(t);
    } else if t < 160 {
      E0Part4Means(t);
    } else if t < 192 {
      E0Part5Means(t);
    } else if t < 224 {
      E0Part6Means(t);
    } else {
      E0Part7Means(t);
    }
  }

  lemma AlphabetLowMeans(v: Octet)
    requires v < 32
    ensures AlphabetLow(v) == Symbol(v)
  {
  }

  lemma AlphabetHighMeans(v: Octet)
    requires 32 <= v < 64
    ensures AlphabetHigh(v) == Symbol(v)
  {
  }

  lemma AlphabetMeans(v: Octet)
    requires v < 64
    ensures Alphabet(v) == Symbol(v)
  {
    hide AlphabetLow, AlphabetHigh, Symbol;
    if v < 32 {
      AlphabetLowMeans(v);
    } else {
      AlphabetHighMeans(v);
    }
  }

  lemma E1Means(t: Octet)
    ensures E1(t) == Symbol(t & 63) && E2(t) == Symbol(t & 63)
  {
    hide Alphabet, Symbol;
    AlphabetMeans(t & 63);
  }

  // ---------- Decoding tables (little-endian) ----------

  function D0Low(c: Octet): Quad {
    match c
    case 43 => 0x000000f8 case 47 => 0x000000fc case 48 => 0x000000d0 case 49 => 0x000000d4
    case 50 => 0x000000d8 case 51 => 0x000000dc case 52 => 0x000000e0 case 53 => 0x000000e4
    case 54 => 0x000000e8 case 55 => 0x000000ec case 56 => 0x000000f0 case 57 => 0x000000f4
    case 65 => 0x00000000 case 66 => 0x00000004 case 67 => 0x00000008 case 68 => 0x0000000c
    case 69 => 0x00000010 case 70 => 0x00000014 case 71 => 0x00000018 case 72 => 0x0000001c
    case 73 => 0x00000020 case 74 => 0x00000024 case 75 => 0x00000028 case 76 => 0x0000002c
    case 77 => 0x00000030 case 78 => 0x00000034 case 79 => 0x00000038 case 80 => 0x0000003c
    case 81 => 0x00000040 case 82 => 0x00000044 case 83 => 0x00000048 case 84 => 0x0000004c
    case 85 => 0x00000050 case 86 => 0x00000054 case 87 => 0x00000058 case 88 => 0x0000005c
    case 89 => 0x00000060 case 90 => 0x00000064
    case _ => 0x01ffffff
  }

  function D0High(c: Octet): Quad {
    match c
    case 97 => 0x00000068 case 98 => 0x0000006c case 99 => 0x00000070 case 100 => 0x00000074
    case 101 => 0x00000078 case 102 => 0x0000007c case 103 => 0x00000080 case 104 => 0x00000084
    case 105 => 0x00000088 case 106 => 0x0000008c case 107 => 0x00000090 case 108 => 0x00000094
    case 109 => 0x00000098 case 110 => 0x0000009c case 111 => 0x000000a0 case 112 => 0x000000a4
    case 113 => 0x000000a8 case 114 => 0x000000ac case 115 => 0x000000b0 case 116 => 0x000000b4
    case 117 => 0x000000b8 case 118 => 0x000000bc case 119 => 0x000000c0 case 120 => 0x000000c4
    case 121 => 0x000000c8 case 122 => 0x000000cc
    case _ => 0x01ffffff
  }

  function D0(c: Octet): Quad {
    if c < 96 then D0Low(c) else D0High(c)
  }

  function D1Low(c: Octet): Quad {
    match c
    case 43 => 0x0000e003 case 47 => 0x0000f003 case 48 => 0x00004003 case 49 => 0x00005003
    case 50 => 0x00006003 case 51 => 0x00007003 case 52 => 0x00008003 case 53 => 0x00009003
    case 54 => 0x0000a003 case 55 => 0x0000b003 case 56 => 0x0000c003 case 57 => 0x0000d003
    case 65 => 0x00000000 case 66 => 0x00001000 case 67 => 0x00002000 case 68 => 0x00003000
    case 69 => 0x00004000 case 70 => 0x00005000 case 71 => 0x00006000 case 72 => 0x00007000
    case 73 => 0x00008000 case 74 => 0x00009000 case 75 => 0x0000a000 case 76 => 0x0000b000
    case 77 => 0x0000c000 case 78 => 0x0000d000 case 79 => 0x0000e000 case 80 => 0x0000f000
    case 81 => 0x00000001 case 82 => 0x00001001 case 83 => 0x00002001 case 84 => 0x00003001
    case 85 => 0x00004001 case 86 => 0x00005001 case 87 => 0x00006001 case 88 => 0x00007001
    case 89 => 0x00008001 case 90 => 0x00009001
    case _ => 0x01ffffff
  }

  function D1High(c: Octet): Quad {
    match c
    case 97 => 0x0000a001 case 98 => 0x0000b001 case 99 => 0x0000c001 case 100 => 0x0000d001
    case 101 => 0x0000e001 case 102 => 0x0000f001 case 103 => 0x00000002 case 104 => 0x00001002
    case 105 => 0x00002002 case 106 => 0x00003002 case 107 => 0x00004002 case 108 => 0x00005002
    case 109 => 0x00006002 case 110 => 0x00007002 case 111 => 0x00008002 case 112 => 0x00009002
    case 113 => 0x0000a002 case 114 => 0x0000b002 case 115 => 0x0000c002 case 116 => 0x0000d002
    case 117 => 0x0000e002 case 118 => 0x0000f002 case 119 => 0x00000003 case 120 => 0x00001003
    case 121 => 0x00002003 case 122 => 0x00003003
    case _ => 0x01ffffff
  }

  function D1(c: Octet): Quad {
    if c < 96 then D1Low(c) else D1High(c)
  }

  function D2Low(c: Octet): Quad {
    match c
    case 43 => 0x00800f00 case 47 => 0x00c00f00 case 48 => 0x00000d00 case 49 => 0x00400d00
    case 50 => 0x00800d00 case 51 => 0x00c00d00 case 52 => 0x00000e00 case 53 => 0x00400e00
    case 54 => 0x00800e00 case 55 => 0x00c00e00 case 56 => 0x00000f00 case 57 => 0x00400f00
    case 65 => 0x00000000 case 66 => 0x00400000 case 67 => 0x00800000 case 68 => 0x00c00000
    case 69 => 0x00000100 case 70 => 0x00400100 case 71 => 0x00800100 case 72 => 0x00c00100
    case 73 => 0x00000200 case 74 => 0x00400200 case 75 => 0x00800200 case 76 => 0x00c00200
    case 77 => 0x00000300 case 78 => 0x00400300 case 79 => 0x00800300 case 80 => 0x00c00300
    case 81 => 0x00000400 case 82 => 0x00400400 case 83 => 0x00800400 case 84 => 0x00c00400
    case 85 => 0x00000500 case 86 => 0x00400500 case 87 => 0x00800500 case 88 => 0x00c00500
    case 89 => 0x00000600 case 90 => 0x00400600
    case _ => 0x01ffffff
  }

  function D2High(c: Octet): Quad {
    match c
    case 97 => 0x00800600 case 98 => 0x00c00600 case 99 => 0x00000700 case 100 => 0x00400700
    case 101 => 0x00800700 case 102 => 0x00c00700 case 103 => 0x00000800 case 104 => 0x00400800
    case 105 => 0x00800800 case 106 => 0x00c00800 case 107 => 0x00000900 case 108 => 0x00400900
    case 109 => 0x00800900 case 110 => 0x00c00900 case 111 => 0x00000a00 case 112 => 0x00400a00
    case 113 => 0x00800a00 case 114 => 0x00c00a00 case 115 => 0x00000b00 case 116 => 0x00400b00
    case 117 => 0x00800b00 case 118 => 0x00c00b00 case 119 => 0x00000c00 case 120 => 0x00400c00
    case 121 => 0x00800c00 case 122 => 0x00c00c00
    case _ => 0x01ffffff
  }

  function D2(c: Octet): Quad {
    if c < 96 then D2Low(c) else D2High(c)
  }

  function D3Low(c: Octet): Quad {
    match c
    case 43 => 0x003e0000 case 47 => 0x003f0000 case 48 => 0x00340000 case 49 => 0x00350000
    case 50 => 0x00360000 case 51 => 0x00370000 case 52 => 0x00380000 case 53 => 0x00390000
    case 54 => 0x003a0000 case 55 => 0x003b0000 case 56 => 0x003c0000 case 57 => 0x003d0000
    case 65 => 0x00000000 case 66 => 0x00010000 case 67 => 0x00020000 case 68 => 0x00030000
    case 69 => 0x00040000 case 70 => 0x00050000 case 71 => 0x00060000 case 72 => 0x00070000
    case 73 => 0x00080000 case 74 => 0x00090000 case 75 => 0x000a0000 case 76 => 0x000b0000
    case 77 => 0x000c0000 case 78 => 0x000d0000 case 79 => 0x000e0000 case 80 => 0x000f0000
    case 81 => 0x00100000 case 82 => 0x00110000 case 83 => 0x00120000 case 84 => 0x00130000
    case 85 => 0x00140000 case 86 => 0x00150000 case 87 => 0x00160000 case 88 => 0x00170000
    case 89 => 0x00180000 case 90 => 0x00190000
    case _ => 0x01ffffff
  }

  function D3High(c: Octet): Quad {
    match c
    case 97 => 0x001a0000 case 98 => 0x001b0000 case 99 => 0x001c0000 case 100 => 0x001d0000
    case 101 => 0x001e0000 case 102 => 0x001f0000 case 103 => 0x00200000 case 104 => 0x00210000
    case 105 => 0x00220000 case 106 => 0x00230000 case 107 => 0x00240000 case 108 => 0x00250000
    case 109 => 0x00260000 case 110 => 0x00270000 case 111 => 0x00280000 case 112 => 0x00290000
    case 113 => 0x002a0000 case 114 => 0x002b0000 case 115 => 0x002c0000 case 116 => 0x002d0000
    case 117 => 0x002e0000 case 118 => 0x002f0000 case 119 => 0x00300000 case 120 => 0x00310000
    case 121 => 0x00320000 case 122 => 0x00330000
    case _ => 0x01ffffff
  }

  function D3(c: Octet): Quad {
    if c < 96 then D3Low(c) else D3High(c)
  }

  function D0Entry(v: Quad): Quad { v << 2 }

  function D1Entry(v: Quad): Quad { (v >> 4) | ((v & 15) << 12) }

  function D2Entry(v: Quad): Quad { ((v >> 2) << 8) | ((v & 3) << 22) }

  function D3Entry(v: Quad): Quad { v << 16 }

  lemma D0LowMeans(c: Octet)
    requires c < 96
    ensures D0Low(c) == if InAlphabet(c) then D0Entry(Value(c) as Quad) else BADCHAR
  {
  }

  lemma D0HighMeans(c: Octet)
    requires c >= 96
    ensures D0High(c) == if InAlphabet(c) then D0Entry(Value(c) as Quad) else BADCHAR
  {
  }

  lemma D0Means(c: Octet)
    ensures D0(c) == if InAlphabet(c) then D0Entry(Value(c) as Quad) else BADCHAR
  {
    hide D0Low, D0High, D0Entry, InAlphabet, Value;
    if c < 96 {
      D0LowMeans(c);
    } else {
      D0HighMeans(c);
    }
  }

  lemma D1LowMeans(c: Octet)
    requires c < 96
    ensures D1Low(c) == if InAlphabet(c) then D1Entry(Value(c) as Quad) else BADCHAR
  {
  }

  lemma D1HighMeans(c: Octet)
    requires c >= 96
    ensures D1High(c) == if InAlphabet(c) then D1Entry(Value(c) as Quad) else BADCHAR
  {
  }

  lemma D1Means(c: Octet)
    ensures D1(c) == if InAlphabet(c) then D1Entry(Value(c) as Quad) else BADCHAR
  {
    hide D1Low, D1High, D1Entry, InAlphabet, Value;
    if c < 96 {
      D1LowMeans(c);
    } else {
      D1HighMeans(c);
    }
  }

  lemma D2LowMeans(c: Octet)
    requires c < 96
    ensures D2Low(c) == if InAlphabet(c) then D2Entry(Value(c) as Quad) else BADCHAR
  {
  }

  lemma D2HighMeans(c: Octet)
    requires c >= 96
    ensures D2High(c) == if InAlphabet(c) then D2Entry(Value(c) as Quad) else BADCHAR
  {
  }

  lemma D2Means(c: Octet)
    ensures D2(c) == if InAlphabet(c) then D2Entry(Value(c) as Quad) else BADCHAR
  {
    hide D2Low, D2High, D2Entry, InAlphabet, Value;
    if c < 96 {
      D2LowMeans(c);
    } else {
      D2HighMeans(c);
    }
  }

  lemma D3LowMeans(c: Octet)
    requires c < 96
    ensures D3Low(c) == if InAlphabet(c) then D3Entry(Value(c) as Quad) else BADCHAR
  {
  }

  lemma D3HighMeans(c: Octet)
    requires c >= 96
    ensures D3High(c) == if InAlphabet(c) then D3Entry(Value(c) as Quad) else BADCHAR
  {
  }

  lemma D3Means(c: Octet)
    ensures D3(c) == if InAlphabet(c) then D3Entry(Value(c) as Quad) else BADCHAR
  {
    hide D3Low, D3High, D3Entry, InAlphabet, Value;
    if c < 96 {
      D3LowMeans(c);
    } else {
      D3HighMeans(c);
    }
  }
}
