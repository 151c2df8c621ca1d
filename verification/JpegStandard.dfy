/** The code tables that the writer carries, and the counts and symbols that it writes to the header
    for them: they define the same codes. */
module JpegStandard {
  import opened Bits
  import opened Canonical
  import opened JpegHuffman
  import opened JpegCode
  import opened JpegTables

  /** The four codes: of differences of DC coefficients and of AC coefficients, of luminance and of
      chrominance. */
  datatype Standard = LumaDc | LumaAc | ChromaDc | ChromaAc

  /** How many codes there are of each length. */
  function Counts(t: Standard): (r: seq<nat>)
    ensures |r| == 16
  {
    match t
    case LumaDc => [0, 1, 5, 1, 1, 1, 1, 1, 1, 0, 0, 0, 0, 0, 0, 0]
    case LumaAc => [0, 2, 1, 3, 3, 2, 4, 3, 5, 5, 4, 4, 0, 0, 1, 125]
    case ChromaDc => [0, 3, 1, 1, 1, 1, 1, 1, 1, 1, 1, 0, 0, 0, 0, 0]
    case ChromaAc => [0, 2, 1, 2, 4, 4, 3, 4, 7, 5, 4, 4, 0, 1, 2, 119]
  }

  /** The symbols in the order of their codes. */
  function Symbols(t: Standard): (r: seq<byte>)
    ensures |r| == 256
  {
    seq(256, i requires i >= 0 => SymbolOf(t, i))
  }

  function SymbolOf(t: Standard, i: nat): byte {
    match t
    case LumaDc => LumaDcSymbol(i)
    case LumaAc => LumaAcSymbol(i)
    case ChromaDc => ChromaDcSymbol(i)
    case ChromaAc => ChromaAcSymbol(i)
  }

  /** The writer's table. */
  function WriterTable(t: Standard): (r: seq<Entry>)
    ensures |r| == 256
  {
    seq(256, v requires v >= 0 => EntryOf(t, v))
  }

  function EntryOf(t: Standard, v: nat): Entry {
    match t
    case LumaDc => LumaDcEntry(v)
    case LumaAc => LumaAcEntry(v)
    case ChromaDc => ChromaDcEntry(v)
    case ChromaAc => ChromaAcEntry(v)
  }

  predicate OfDc(t: Standard) {
    t.LumaDc? || t.ChromaDc?
  }

  /** The categories up to 11 of differences; of coefficients, those from 1 to 10 behind any run, the end,
      and 16 zeros. */
  predicate Needed(dc: bool, v: nat) {
    if dc then v < 12 else 1 <= v % 16 <= 10 || v == 0 || v == 0xF0
  }

  /** The entry is the code of the place where v stands among the symbols, and is there if needed. */
  predicate Good(t: Standard, v: nat) {
    var e := EntryOf(t, v);
    if e.length == 0 then e.code == 0 && !Needed(OfDc(t), v)
    else
      && e.length <= 16
      && var i := e.code - FirstCode(Counts(t), e.length) + FirstSymbol(Counts(t), e.length);
        FirstSymbol(Counts(t), e.length) <= i < FirstSymbol(Counts(t), e.length + 1) && i < 256 && SymbolOf(t, i) == v
  }

  lemma OfSixteen(v: nat, r: nat)
    requires v / 16 == r
    ensures v == 16 * r || v == 16 * r + 1 || v == 16 * r + 2 || v == 16 * r + 3 || v == 16 * r + 4 || v == 16 * r + 5 ||
            v == 16 * r + 6 || v == 16 * r + 7 || v == 16 * r + 8 || v == 16 * r + 9 || v == 16 * r + 10 || v == 16 * r + 11 ||
            v == 16 * r + 12 || v == 16 * r + 13 || v == 16 * r + 14 || v == 16 * r + 15
  {
  }

  // ----- the luminance DC code

  function LumaDcSymbol(i: nat): byte {
    match i / 16
    case 0 => (match i % 16 case 0 => 0 case 1 => 1 case 2 => 2 case 3 => 3 case 4 => 4 case 5 => 5 case 6 => 6
      case 7 => 7 case 8 => 8 case 9 => 9 case 10 => 10 case 11 => 11 case _ => 0)
    case _ => 0
  }

  function LumaDcEntry(v: nat): Entry {
    match v / 16
    case 0 => (match v % 16 case 0 => Entry(0, 2) case 1 => Entry(2, 3) case 2 => Entry(3, 3) case 3 => Entry(4, 3)
      case 4 => Entry(5, 3) case 5 => Entry(6, 3) case 6 => Entry(14, 4) case 7 => Entry(30, 5) case 8 => Entry(62, 6)
      case 9 => Entry(126, 7) case 10 => Entry(254, 8) case 11 => Entry(510, 9) case _ => Entry(0, 0))
    case _ => Entry(0, 0)
  }

  lemma LumaDcFirsts()
    ensures FirstCode(Counts(LumaDc), 1) == 0 && FirstSymbol(Counts(LumaDc), 1) == 0
    ensures FirstCode(Counts(LumaDc), 2) == 0 && FirstSymbol(Counts(LumaDc), 2) == 0
    ensures FirstCode(Counts(LumaDc), 3) == 2 && FirstSymbol(Counts(LumaDc), 3) == 1
    ensures FirstCode(Counts(LumaDc), 4) == 14 && FirstSymbol(Counts(LumaDc), 4) == 6
    ensures FirstCode(Counts(LumaDc), 5) == 30 && FirstSymbol(Counts(LumaDc), 5) == 7
    ensures FirstCode(Counts(LumaDc), 6) == 62 && FirstSymbol(Counts(LumaDc), 6) == 8
    ensures FirstCode(Counts(LumaDc), 7) == 126 && FirstSymbol(Counts(LumaDc), 7) == 9
    ensures FirstCode(Counts(LumaDc), 8) == 254 && FirstSymbol(Counts(LumaDc), 8) == 10
    ensures FirstCode(Counts(LumaDc), 9) == 510 && FirstSymbol(Counts(LumaDc), 9) == 11
    ensures FirstCode(Counts(LumaDc), 10) == 1022 && FirstSymbol(Counts(LumaDc), 10) == 12
    ensures FirstCode(Counts(LumaDc), 11) == 2044 && FirstSymbol(Counts(LumaDc), 11) == 12
    ensures FirstCode(Counts(LumaDc), 12) == 4088 && FirstSymbol(Counts(LumaDc), 12) == 12
    ensures FirstCode(Counts(LumaDc), 13) == 8176 && FirstSymbol(Counts(LumaDc), 13) == 12
    ensures FirstCode(Counts(LumaDc), 14) == 16352 && FirstSymbol(Counts(LumaDc), 14) == 12
    ensures FirstCode(Counts(LumaDc), 15) == 32704 && FirstSymbol(Counts(LumaDc), 15) == 12
    ensures FirstCode(Counts(LumaDc), 16) == 65408 && FirstSymbol(Counts(LumaDc), 16) == 12
    ensures FirstCode(Counts(LumaDc), 17) == 130816 && FirstSymbol(Counts(LumaDc), 17) == 12
  {
  }

  lemma LumaDcBelow16(v: nat)
    requires v < 16
    ensures Good(LumaDc, v)
  {
    hide FirstCode, FirstSymbol, Counts;
    LumaDcFirsts();
    OfSixteen(v, 0);
  }

  // ----- the luminance AC code

  function LumaAcSymbol(i: nat): byte {
    match i / 16
    case 0 => (match i % 16 case 0 => 1 case 1 => 2 case 2 => 3 case 3 => 0 case 4 => 4 case 5 => 17 case 6 => 5
      case 7 => 18 case 8 => 33 case 9 => 49 case 10 => 65 case 11 => 6 case 12 => 19 case 13 => 81 case 14 => 97
      case 15 => 7 case _ => 0)
    case 1 => (match i % 16 case 0 => 34 case 1 => 113 case 2 => 20 case 3 => 50 case 4 => 129 case 5 => 145
      case 6 => 161 case 7 => 8 case 8 => 35 case 9 => 66 case 10 => 177 case 11 => 193 case 12 => 21 case 13 => 82
      case 14 => 209 case 15 => 240 case _ => 0)
    case 2 => (match i % 16 case 0 => 36 case 1 => 51 case 2 => 98 case 3 => 114 case 4 => 130 case 5 => 9
      case 6 => 10 case 7 => 22 case 8 => 23 case 9 => 24 case 10 => 25 case 11 => 26 case 12 => 37 case 13 => 38
      case 14 => 39 case 15 => 40 case _ => 0)
    case 3 => (match i % 16 case 0 => 41 case 1 => 42 case 2 => 52 case 3 => 53 case 4 => 54 case 5 => 55 case 6 => 56
      case 7 => 57 case 8 => 58 case 9 => 67 case 10 => 68 case 11 => 69 case 12 => 70 case 13 => 71 case 14 => 72
      case 15 => 73 case _ => 0)
    case 4 => (match i % 16 case 0 => 74 case 1 => 83 case 2 => 84 case 3 => 85 case 4 => 86 case 5 => 87 case 6 => 88
      case 7 => 89 case 8 => 90 case 9 => 99 case 10 => 100 case 11 => 101 case 12 => 102 case 13 => 103
      case 14 => 104 case 15 => 105 case _ => 0)
    case 5 => (match i % 16 case 0 => 106 case 1 => 115 case 2 => 116 case 3 => 117 case 4 => 118 case 5 => 119
      case 6 => 120 case 7 => 121 case 8 => 122 case 9 => 131 case 10 => 132 case 11 => 133 case 12 => 134
      case 13 => 135 case 14 => 136 case 15 => 137 case _ => 0)
    case 6 => (match i % 16 case 0 => 138 case 1 => 146 case 2 => 147 case 3 => 148 case 4 => 149 case 5 => 150
      case 6 => 151 case 7 => 152 case 8 => 153 case 9 => 154 case 10 => 162 case 11 => 163 case 12 => 164
      case 13 => 165 case 14 => 166 case 15 => 167 case _ => 0)
    case 7 => (match i % 16 case 0 => 168 case 1 => 169 case 2 => 170 case 3 => 178 case 4 => 179 case 5 => 180
      case 6 => 181 case 7 => 182 case 8 => 183 case 9 => 184 case 10 => 185 case 11 => 186 case 12 => 194
      case 13 => 195 case 14 => 196 case 15 => 197 case _ => 0)
    case 8 => (match i % 16 case 0 => 198 case 1 => 199 case 2 => 200 case 3 => 201 case 4 => 202 case 5 => 210
      case 6 => 211 case 7 => 212 case 8 => 213 case 9 => 214 case 10 => 215 case 11 => 216 case 12 => 217
      case 13 => 218 case 14 => 225 case 15 => 226 case _ => 0)
    case 9 => (match i % 16 case 0 => 227 case 1 => 228 case 2 => 229 case 3 => 230 case 4 => 231 case 5 => 232
      case 6 => 233 case 7 => 234 case 8 => 241 case 9 => 242 case 10 => 243 case 11 => 244 case 12 => 245
      case 13 => 246 case 14 => 247 case 15 => 248 case _ => 0)
    case 10 => (match i % 16 case 0 => 249 case 1 => 250 case _ => 0)
    case _ => 0
  }

  function LumaAcEntry(v: nat): Entry {
    match v / 16
    case 0 => (match v % 16 case 0 => Entry(10, 4) case 1 => Entry(0, 2) case 2 => Entry(1, 2) case 3 => Entry(4, 3)
      case 4 => Entry(11, 4) case 5 => Entry(26, 5) case 6 => Entry(120, 7) case 7 => Entry(248, 8)
      case 8 => Entry(1014, 10) case 9 => Entry(65410, 16) case 10 => Entry(65411, 16) case _ => Entry(0, 0))
    case 1 => (match v % 16 case 1 => Entry(12, 4) case 2 => Entry(27, 5) case 3 => Entry(121, 7)
      case 4 => Entry(502, 9) case 5 => Entry(2038, 11) case 6 => Entry(65412, 16) case 7 => Entry(65413, 16)
      case 8 => Entry(65414, 16) case 9 => Entry(65415, 16) case 10 => Entry(65416, 16) case _ => Entry(0, 0))
    case 2 => (match v % 16 case 1 => Entry(28, 5) case 2 => Entry(249, 8) case 3 => Entry(1015, 10)
      case 4 => Entry(4084, 12) case 5 => Entry(65417, 16) case 6 => Entry(65418, 16) case 7 => Entry(65419, 16)
      case 8 => Entry(65420, 16) case 9 => Entry(65421, 16) case 10 => Entry(65422, 16) case _ => Entry(0, 0))
    case 3 => (match v % 16 case 1 => Entry(58, 6) case 2 => Entry(503, 9) case 3 => Entry(4085, 12)
      case 4 => Entry(65423, 16) case 5 => Entry(65424, 16) case 6 => Entry(65425, 16) case 7 => Entry(65426, 16)
      case 8 => Entry(65427, 16) case 9 => Entry(65428, 16) case 10 => Entry(65429, 16) case _ => Entry(0, 0))
    case 4 => (match v % 16 case 1 => Entry(59, 6) case 2 => Entry(1016, 10) case 3 => Entry(65430, 16)
      case 4 => Entry(65431, 16) case 5 => Entry(65432, 16) case 6 => Entry(65433, 16) case 7 => Entry(65434, 16)
      case 8 => Entry(65435, 16) case 9 => Entry(65436, 16) case 10 => Entry(65437, 16) case _ => Entry(0, 0))
    case 5 => (match v % 16 case 1 => Entry(122, 7) case 2 => Entry(2039, 11) case 3 => Entry(65438, 16)
      case 4 => Entry(65439, 16) case 5 => Entry(65440, 16) case 6 => Entry(65441, 16) case 7 => Entry(65442, 16)
      case 8 => Entry(65443, 16) case 9 => Entry(65444, 16) case 10 => Entry(65445, 16) case _ => Entry(0, 0))
    case 6 => (match v % 16 case 1 => Entry(123, 7) case 2 => Entry(4086, 12) case 3 => Entry(65446, 16)
      case 4 => Entry(65447, 16) case 5 => Entry(65448, 16) case 6 => Entry(65449, 16) case 7 => Entry(65450, 16)
      case 8 => Entry(65451, 16) case 9 => Entry(65452, 16) case 10 => Entry(65453, 16) case _ => Entry(0, 0))
    case 7 => (match v % 16 case 1 => Entry(250, 8) case 2 => Entry(4087, 12) case 3 => Entry(65454, 16)
      case 4 => Entry(65455, 16) case 5 => Entry(65456, 16) case 6 => Entry(65457, 16) case 7 => Entry(65458, 16)
      case 8 => Entry(65459, 16) case 9 => Entry(65460, 16) case 10 => Entry(65461, 16) case _ => Entry(0, 0))
    case 8 => (match v % 16 case 1 => Entry(504, 9) case 2 => Entry(32704, 15) case 3 => Entry(65462, 16)
      case 4 => Entry(65463, 16) case 5 => Entry(65464, 16) case 6 => Entry(65465, 16) case 7 => Entry(65466, 16)
      case 8 => Entry(65467, 16) case 9 => Entry(65468, 16) case 10 => Entry(65469, 16) case _ => Entry(0, 0))
    case 9 => (match v % 16 case 1 => Entry(505, 9) case 2 => Entry(65470, 16) case 3 => Entry(65471, 16)
      case 4 => Entry(65472, 16) case 5 => Entry(65473, 16) case 6 => Entry(65474, 16) case 7 => Entry(65475, 16)
      case 8 => Entry(65476, 16) case 9 => Entry(65477, 16) case 10 => Entry(65478, 16) case _ => Entry(0, 0))
    case 10 => (match v % 16 case 1 => Entry(506, 9) case 2 => Entry(65479, 16) case 3 => Entry(65480, 16)
      case 4 => Entry(65481, 16) case 5 => Entry(65482, 16) case 6 => Entry(65483, 16) case 7 => Entry(65484, 16)
      case 8 => Entry(65485, 16) case 9 => Entry(65486, 16) case 10 => Entry(65487, 16) case _ => Entry(0, 0))
    case 11 => (match v % 16 case 1 => Entry(1017, 10) case 2 => Entry(65488, 16) case 3 => Entry(65489, 16)
      case 4 => Entry(65490, 16) case 5 => Entry(65491, 16) case 6 => Entry(65492, 16) case 7 => Entry(65493, 16)
      case 8 => Entry(65494, 16) case 9 => Entry(65495, 16) case 10 => Entry(65496, 16) case _ => Entry(0, 0))
    case 12 => (match v % 16 case 1 => Entry(1018, 10) case 2 => Entry(65497, 16) case 3 => Entry(65498, 16)
      case 4 => Entry(65499, 16) case 5 => Entry(65500, 16) case 6 => Entry(65501, 16) case 7 => Entry(65502, 16)
      case 8 => Entry(65503, 16) case 9 => Entry(65504, 16) case 10 => Entry(65505, 16) case _ => Entry(0, 0))
    case 13 => (match v % 16 case 1 => Entry(2040, 11) case 2 => Entry(65506, 16) case 3 => Entry(65507, 16)
      case 4 => Entry(65508, 16) case 5 => Entry(65509, 16) case 6 => Entry(65510, 16) case 7 => Entry(65511, 16)
      case 8 => Entry(65512, 16) case 9 => Entry(65513, 16) case 10 => Entry(65514, 16) case _ => Entry(0, 0))
    case 14 => (match v % 16 case 1 => Entry(65515, 16) case 2 => Entry(65516, 16) case 3 => Entry(65517, 16)
      case 4 => Entry(65518, 16) case 5 => Entry(65519, 16) case 6 => Entry(65520, 16) case 7 => Entry(65521, 16)
      case 8 => Entry(65522, 16) case 9 => Entry(65523, 16) case 10 => Entry(65524, 16) case _ => Entry(0, 0))
    case 15 => (match v % 16 case 0 => Entry(2041, 11) case 1 => Entry(65525, 16) case 2 => Entry(65526, 16)
      case 3 => Entry(65527, 16) case 4 => Entry(65528, 16) case 5 => Entry(65529, 16) case 6 => Entry(65530, 16)
      case 7 => Entry(65531, 16) case 8 => Entry(65532, 16) case 9 => Entry(65533, 16) case 10 => Entry(65534, 16)
      case _ => Entry(0, 0))
    case _ => Entry(0, 0)
  }

  lemma LumaAcFirsts()
    ensures FirstCode(Counts(LumaAc), 1) == 0 && FirstSymbol(Counts(LumaAc), 1) == 0
    ensures FirstCode(Counts(LumaAc), 2) == 0 && FirstSymbol(Counts(LumaAc), 2) == 0
    ensures FirstCode(Counts(LumaAc), 3) == 4 && FirstSymbol(Counts(LumaAc), 3) == 2
    ensures FirstCode(Counts(LumaAc), 4) == 10 && FirstSymbol(Counts(LumaAc), 4) == 3
    ensures FirstCode(Counts(LumaAc), 5) == 26 && FirstSymbol(Counts(LumaAc), 5) == 6
    ensures FirstCode(Counts(LumaAc), 6) == 58 && FirstSymbol(Counts(LumaAc), 6) == 9
    ensures FirstCode(Counts(LumaAc), 7) == 120 && FirstSymbol(Counts(LumaAc), 7) == 11
    ensures FirstCode(Counts(LumaAc), 8) == 248 && FirstSymbol(Counts(LumaAc), 8) == 15
    ensures FirstCode(Counts(LumaAc), 9) == 502 && FirstSymbol(Counts(LumaAc), 9) == 18
    ensures FirstCode(Counts(LumaAc), 10) == 1014 && FirstSymbol(Counts(LumaAc), 10) == 23
    ensures FirstCode(Counts(LumaAc), 11) == 2038 && FirstSymbol(Counts(LumaAc), 11) == 28
    ensures FirstCode(Counts(LumaAc), 12) == 4084 && FirstSymbol(Counts(LumaAc), 12) == 32
    ensures FirstCode(Counts(LumaAc), 13) == 8176 && FirstSymbol(Counts(LumaAc), 13) == 36
    ensures FirstCode(Counts(LumaAc), 14) == 16352 && FirstSymbol(Counts(LumaAc), 14) == 36
    ensures FirstCode(Counts(LumaAc), 15) == 32704 && FirstSymbol(Counts(LumaAc), 15) == 36
    ensures FirstCode(Counts(LumaAc), 16) == 65410 && FirstSymbol(Counts(LumaAc), 16) == 37
    ensures FirstCode(Counts(LumaAc), 17) == 131070 && FirstSymbol(Counts(LumaAc), 17) == 162
  {
  }

  lemma LumaAcBelow6(v: nat)
    requires v < 6
    ensures Good(LumaAc, v)
  {
    hide FirstCode, FirstSymbol, Counts;
    LumaAcFirsts();
    assert v == 0 || v == 1 || v == 2 || v == 3 || v == 4 || v == 5;
  }

  lemma LumaAcBelow16(v: nat)
    requires 6 <= v < 16
    ensures Good(LumaAc, v)
  {
    hide FirstCode, FirstSymbol, Counts;
    LumaAcFirsts();
    assert v == 6 || v == 7 || v == 8 || v == 9 || v == 10 || v == 11 || v == 12 || v == 13 || v == 14 || v == 15;
  }

  lemma LumaAcBelow64(v: nat)
    requires 16 <= v < 64
    ensures Good(LumaAc, v)
  {
    hide FirstCode, FirstSymbol, Counts;
    LumaAcFirsts();
    if v / 16 == 1 { OfSixteen(v, 1); }
    else if v / 16 == 2 { OfSixteen(v, 2); }
    else { OfSixteen(v, 3); }
  }

  lemma LumaAcBelow128(v: nat)
    requires 64 <= v < 128
    ensures Good(LumaAc, v)
  {
    hide FirstCode, FirstSymbol, Counts;
    LumaAcFirsts();
    if v / 16 == 4 { OfSixteen(v, 4); }
    else if v / 16 == 5 { OfSixteen(v, 5); }
    else if v / 16 == 6 { OfSixteen(v, 6); }
    else { OfSixteen(v, 7); }
  }

  lemma LumaAcBelow192(v: nat)
    requires 128 <= v < 192
    ensures Good(LumaAc, v)
  {
    hide FirstCode, FirstSymbol, Counts;
    LumaAcFirsts();
    if v / 16 == 8 { OfSixteen(v, 8); }
    else if v / 16 == 9 { OfSixteen(v, 9); }
    else if v / 16 == 10 { OfSixteen(v, 10); }
    else { OfSixteen(v, 11); }
  }

  lemma LumaAcBelow256(v: nat)
    requires 192 <= v < 256
    ensures Good(LumaAc, v)
  {
    hide FirstCode, FirstSymbol, Counts;
    LumaAcFirsts();
    if v / 16 == 12 { OfSixteen(v, 12); }
    else if v / 16 == 13 { OfSixteen(v, 13); }
    else if v / 16 == 14 { OfSixteen(v, 14); }
    else { OfSixteen(v, 15); }
  }

  // ----- the chrominance DC code

  function ChromaDcSymbol(i: nat): byte {
    match i / 16
    case 0 => (match i % 16 case 0 => 0 case 1 => 1 case 2 => 2 case 3 => 3 case 4 => 4 case 5 => 5 case 6 => 6
      case 7 => 7 case 8 => 8 case 9 => 9 case 10 => 10 case 11 => 11 case _ => 0)
    case _ => 0
  }

  function ChromaDcEntry(v: nat): Entry {
    match v / 16
    case 0 => (match v % 16 case 0 => Entry(0, 2) case 1 => Entry(1, 2) case 2 => Entry(2, 2) case 3 => Entry(6, 3)
      case 4 => Entry(14, 4) case 5 => Entry(30, 5) case 6 => Entry(62, 6) case 7 => Entry(126, 7)
      case 8 => Entry(254, 8) case 9 => Entry(510, 9) case 10 => Entry(1022, 10) case 11 => Entry(2046, 11)
      case _ => Entry(0, 0))
    case _ => Entry(0, 0)
  }

  lemma ChromaDcFirsts()
    ensures FirstCode(Counts(ChromaDc), 1) == 0 && FirstSymbol(Counts(ChromaDc), 1) == 0
    ensures FirstCode(Counts(ChromaDc), 2) == 0 && FirstSymbol(Counts(ChromaDc), 2) == 0
    ensures FirstCode(Counts(ChromaDc), 3) == 6 && FirstSymbol(Counts(ChromaDc), 3) == 3
    ensures FirstCode(Counts(ChromaDc), 4) == 14 && FirstSymbol(Counts(ChromaDc), 4) == 4
    ensures FirstCode(Counts(ChromaDc), 5) == 30 && FirstSymbol(Counts(ChromaDc), 5) == 5
    ensures FirstCode(Counts(ChromaDc), 6) == 62 && FirstSymbol(Counts(ChromaDc), 6) == 6
    ensures FirstCode(Counts(ChromaDc), 7) == 126 && FirstSymbol(Counts(ChromaDc), 7) == 7
    ensures FirstCode(Counts(ChromaDc), 8) == 254 && FirstSymbol(Counts(ChromaDc), 8) == 8
    ensures FirstCode(Counts(ChromaDc), 9) == 510 && FirstSymbol(Counts(ChromaDc), 9) == 9
    ensures FirstCode(Counts(ChromaDc), 10) == 1022 && FirstSymbol(Counts(ChromaDc), 10) == 10
    ensures FirstCode(Counts(ChromaDc), 11) == 2046 && FirstSymbol(Counts(ChromaDc), 11) == 11
    ensures FirstCode(Counts(ChromaDc), 12) == 4094 && FirstSymbol(Counts(ChromaDc), 12) == 12
    ensures FirstCode(Counts(ChromaDc), 13) == 8188 && FirstSymbol(Counts(ChromaDc), 13) == 12
    ensures FirstCode(Counts(ChromaDc), 14) == 16376 && FirstSymbol(Counts(ChromaDc), 14) == 12
    ensures FirstCode(Counts(ChromaDc), 15) == 32752 && FirstSymbol(Counts(ChromaDc), 15) == 12
    ensures FirstCode(Counts(ChromaDc), 16) == 65504 && FirstSymbol(Counts(ChromaDc), 16) == 12
    ensures FirstCode(Counts(ChromaDc), 17) == 131008 && FirstSymbol(Counts(ChromaDc), 17) == 12
  {
  }

  lemma ChromaDcBelow16(v: nat)
    requires v < 16
    ensures Good(ChromaDc, v)
  {
    hide FirstCode, FirstSymbol, Counts;
    ChromaDcFirsts();
    OfSixteen(v, 0);
  }

  // ----- the chrominance AC code

  function ChromaAcSymbol(i: nat): byte {
    match i / 16
    case 0 => (match i % 16 case 0 => 0 case 1 => 1 case 2 => 2 case 3 => 3 case 4 => 17 case 5 => 4 case 6 => 5
      case 7 => 33 case 8 => 49 case 9 => 6 case 10 => 18 case 11 => 65 case 12 => 81 case 13 => 7 case 14 => 97
      case 15 => 113 case _ => 0)
    case 1 => (match i % 16 case 0 => 19 case 1 => 34 case 2 => 50 case 3 => 129 case 4 => 8 case 5 => 20 case 6 => 66
      case 7 => 145 case 8 => 161 case 9 => 177 case 10 => 193 case 11 => 9 case 12 => 35 case 13 => 51 case 14 => 82
      case 15 => 240 case _ => 0)
    case 2 => (match i % 16 case 0 => 21 case 1 => 98 case 2 => 114 case 3 => 209 case 4 => 10 case 5 => 22
      case 6 => 36 case 7 => 52 case 8 => 225 case 9 => 37 case 10 => 241 case 11 => 23 case 12 => 24 case 13 => 25
      case 14 => 26 case 15 => 38 case _ => 0)
    case 3 => (match i % 16 case 0 => 39 case 1 => 40 case 2 => 41 case 3 => 42 case 4 => 53 case 5 => 54 case 6 => 55
      case 7 => 56 case 8 => 57 case 9 => 58 case 10 => 67 case 11 => 68 case 12 => 69 case 13 => 70 case 14 => 71
      case 15 => 72 case _ => 0)
    case 4 => (match i % 16 case 0 => 73 case 1 => 74 case 2 => 83 case 3 => 84 case 4 => 85 case 5 => 86 case 6 => 87
      case 7 => 88 case 8 => 89 case 9 => 90 case 10 => 99 case 11 => 100 case 12 => 101 case 13 => 102 case 14 => 103
      case 15 => 104 case _ => 0)
    case 5 => (match i % 16 case 0 => 105 case 1 => 106 case 2 => 115 case 3 => 116 case 4 => 117 case 5 => 118
      case 6 => 119 case 7 => 120 case 8 => 121 case 9 => 122 case 10 => 130 case 11 => 131 case 12 => 132
      case 13 => 133 case 14 => 134 case 15 => 135 case _ => 0)
    case 6 => (match i % 16 case 0 => 136 case 1 => 137 case 2 => 138 case 3 => 146 case 4 => 147 case 5 => 148
      case 6 => 149 case 7 => 150 case 8 => 151 case 9 => 152 case 10 => 153 case 11 => 154 case 12 => 162
      case 13 => 163 case 14 => 164 case 15 => 165 case _ => 0)
    case 7 => (match i % 16 case 0 => 166 case 1 => 167 case 2 => 168 case 3 => 169 case 4 => 170 case 5 => 178
      case 6 => 179 case 7 => 180 case 8 => 181 case 9 => 182 case 10 => 183 case 11 => 184 case 12 => 185
      case 13 => 186 case 14 => 194 case 15 => 195 case _ => 0)
    case 8 => (match i % 16 case 0 => 196 case 1 => 197 case 2 => 198 case 3 => 199 case 4 => 200 case 5 => 201
      case 6 => 202 case 7 => 210 case 8 => 211 case 9 => 212 case 10 => 213 case 11 => 214 case 12 => 215
      case 13 => 216 case 14 => 217 case 15 => 218 case _ => 0)
    case 9 => (match i % 16 case 0 => 226 case 1 => 227 case 2 => 228 case 3 => 229 case 4 => 230 case 5 => 231
      case 6 => 232 case 7 => 233 case 8 => 234 case 9 => 242 case 10 => 243 case 11 => 244 case 12 => 245
      case 13 => 246 case 14 => 247 case 15 => 248 case _ => 0)
    case 10 => (match i % 16 case 0 => 249 case 1 => 250 case _ => 0)
    case _ => 0
  }

  function ChromaAcEntry(v: nat): Entry {
    match v / 16
    case 0 => (match v % 16 case 0 => Entry(0, 2) case 1 => Entry(1, 2) case 2 => Entry(4, 3) case 3 => Entry(10, 4)
      case 4 => Entry(24, 5) case 5 => Entry(25, 5) case 6 => Entry(56, 6) case 7 => Entry(120, 7)
      case 8 => Entry(500, 9) case 9 => Entry(1014, 10) case 10 => Entry(4084, 12) case _ => Entry(0, 0))
    case 1 => (match v % 16 case 1 => Entry(11, 4) case 2 => Entry(57, 6) case 3 => Entry(246, 8)
      case 4 => Entry(501, 9) case 5 => Entry(2038, 11) case 6 => Entry(4085, 12) case 7 => Entry(65416, 16)
      case 8 => Entry(65417, 16) case 9 => Entry(65418, 16) case 10 => Entry(65419, 16) case _ => Entry(0, 0))
    case 2 => (match v % 16 case 1 => Entry(26, 5) case 2 => Entry(247, 8) case 3 => Entry(1015, 10)
      case 4 => Entry(4086, 12) case 5 => Entry(32706, 15) case 6 => Entry(65420, 16) case 7 => Entry(65421, 16)
      case 8 => Entry(65422, 16) case 9 => Entry(65423, 16) case 10 => Entry(65424, 16) case _ => Entry(0, 0))
    case 3 => (match v % 16 case 1 => Entry(27, 5) case 2 => Entry(248, 8) case 3 => Entry(1016, 10)
      case 4 => Entry(4087, 12) case 5 => Entry(65425, 16) case 6 => Entry(65426, 16) case 7 => Entry(65427, 16)
      case 8 => Entry(65428, 16) case 9 => Entry(65429, 16) case 10 => Entry(65430, 16) case _ => Entry(0, 0))
    case 4 => (match v % 16 case 1 => Entry(58, 6) case 2 => Entry(502, 9) case 3 => Entry(65431, 16)
      case 4 => Entry(65432, 16) case 5 => Entry(65433, 16) case 6 => Entry(65434, 16) case 7 => Entry(65435, 16)
      case 8 => Entry(65436, 16) case 9 => Entry(65437, 16) case 10 => Entry(65438, 16) case _ => Entry(0, 0))
    case 5 => (match v % 16 case 1 => Entry(59, 6) case 2 => Entry(1017, 10) case 3 => Entry(65439, 16)
      case 4 => Entry(65440, 16) case 5 => Entry(65441, 16) case 6 => Entry(65442, 16) case 7 => Entry(65443, 16)
      case 8 => Entry(65444, 16) case 9 => Entry(65445, 16) case 10 => Entry(65446, 16) case _ => Entry(0, 0))
    case 6 => (match v % 16 case 1 => Entry(121, 7) case 2 => Entry(2039, 11) case 3 => Entry(65447, 16)
      case 4 => Entry(65448, 16) case 5 => Entry(65449, 16) case 6 => Entry(65450, 16) case 7 => Entry(65451, 16)
      case 8 => Entry(65452, 16) case 9 => Entry(65453, 16) case 10 => Entry(65454, 16) case _ => Entry(0, 0))
    case 7 => (match v % 16 case 1 => Entry(122, 7) case 2 => Entry(2040, 11) case 3 => Entry(65455, 16)
      case 4 => Entry(65456, 16) case 5 => Entry(65457, 16) case 6 => Entry(65458, 16) case 7 => Entry(65459, 16)
      case 8 => Entry(65460, 16) case 9 => Entry(65461, 16) case 10 => Entry(65462, 16) case _ => Entry(0, 0))
    case 8 => (match v % 16 case 1 => Entry(249, 8) case 2 => Entry(65463, 16) case 3 => Entry(65464, 16)
      case 4 => Entry(65465, 16) case 5 => Entry(65466, 16) case 6 => Entry(65467, 16) case 7 => Entry(65468, 16)
      case 8 => Entry(65469, 16) case 9 => Entry(65470, 16) case 10 => Entry(65471, 16) case _ => Entry(0, 0))
    case 9 => (match v % 16 case 1 => Entry(503, 9) case 2 => Entry(65472, 16) case 3 => Entry(65473, 16)
      case 4 => Entry(65474, 16) case 5 => Entry(65475, 16) case 6 => Entry(65476, 16) case 7 => Entry(65477, 16)
      case 8 => Entry(65478, 16) case 9 => Entry(65479, 16) case 10 => Entry(65480, 16) case _ => Entry(0, 0))
    case 10 => (match v % 16 case 1 => Entry(504, 9) case 2 => Entry(65481, 16) case 3 => Entry(65482, 16)
      case 4 => Entry(65483, 16) case 5 => Entry(65484, 16) case 6 => Entry(65485, 16) case 7 => Entry(65486, 16)
      case 8 => Entry(65487, 16) case 9 => Entry(65488, 16) case 10 => Entry(65489, 16) case _ => Entry(0, 0))
    case 11 => (match v % 16 case 1 => Entry(505, 9) case 2 => Entry(65490, 16) case 3 => Entry(65491, 16)
      case 4 => Entry(65492, 16) case 5 => Entry(65493, 16) case 6 => Entry(65494, 16) case 7 => Entry(65495, 16)
      case 8 => Entry(65496, 16) case 9 => Entry(65497, 16) case 10 => Entry(65498, 16) case _ => Entry(0, 0))
    case 12 => (match v % 16 case 1 => Entry(506, 9) case 2 => Entry(65499, 16) case 3 => Entry(65500, 16)
      case 4 => Entry(65501, 16) case 5 => Entry(65502, 16) case 6 => Entry(65503, 16) case 7 => Entry(65504, 16)
      case 8 => Entry(65505, 16) case 9 => Entry(65506, 16) case 10 => Entry(65507, 16) case _ => Entry(0, 0))
    case 13 => (match v % 16 case 1 => Entry(2041, 11) case 2 => Entry(65508, 16) case 3 => Entry(65509, 16)
      case 4 => Entry(65510, 16) case 5 => Entry(65511, 16) case 6 => Entry(65512, 16) case 7 => Entry(65513, 16)
      case 8 => Entry(65514, 16) case 9 => Entry(65515, 16) case 10 => Entry(65516, 16) case _ => Entry(0, 0))
    case 14 => (match v % 16 case 1 => Entry(16352, 14) case 2 => Entry(65517, 16) case 3 => Entry(65518, 16)
      case 4 => Entry(65519, 16) case 5 => Entry(65520, 16) case 6 => Entry(65521, 16) case 7 => Entry(65522, 16)
      case 8 => Entry(65523, 16) case 9 => Entry(65524, 16) case 10 => Entry(65525, 16) case _ => Entry(0, 0))
    case 15 => (match v % 16 case 0 => Entry(1018, 10) case 1 => Entry(32707, 15) case 2 => Entry(65526, 16)
      case 3 => Entry(65527, 16) case 4 => Entry(65528, 16) case 5 => Entry(65529, 16) case 6 => Entry(65530, 16)
      case 7 => Entry(65531, 16) case 8 => Entry(65532, 16) case 9 => Entry(65533, 16) case 10 => Entry(65534, 16)
      case _ => Entry(0, 0))
    case _ => Entry(0, 0)
  }

  lemma ChromaAcFirsts()
    ensures FirstCode(Counts(ChromaAc), 1) == 0 && FirstSymbol(Counts(ChromaAc), 1) == 0
    ensures FirstCode(Counts(ChromaAc), 2) == 0 && FirstSymbol(Counts(ChromaAc), 2) == 0
    ensures FirstCode(Counts(ChromaAc), 3) == 4 && FirstSymbol(Counts(ChromaAc), 3) == 2
    ensures FirstCode(Counts(ChromaAc), 4) == 10 && FirstSymbol(Counts(ChromaAc), 4) == 3
    ensures FirstCode(Counts(ChromaAc), 5) == 24 && FirstSymbol(Counts(ChromaAc), 5) == 5
    ensures FirstCode(Counts(ChromaAc), 6) == 56 && FirstSymbol(Counts(ChromaAc), 6) == 9
    ensures FirstCode(Counts(ChromaAc), 7) == 120 && FirstSymbol(Counts(ChromaAc), 7) == 13
    ensures FirstCode(Counts(ChromaAc), 8) == 246 && FirstSymbol(Counts(ChromaAc), 8) == 16
    ensures FirstCode(Counts(ChromaAc), 9) == 500 && FirstSymbol(Counts(ChromaAc), 9) == 20
    ensures FirstCode(Counts(ChromaAc), 10) == 1014 && FirstSymbol(Counts(ChromaAc), 10) == 27
    ensures FirstCode(Counts(ChromaAc), 11) == 2038 && FirstSymbol(Counts(ChromaAc), 11) == 32
    ensures FirstCode(Counts(ChromaAc), 12) == 4084 && FirstSymbol(Counts(ChromaAc), 12) == 36
    ensures FirstCode(Counts(ChromaAc), 13) == 8176 && FirstSymbol(Counts(ChromaAc), 13) == 40
    ensures FirstCode(Counts(ChromaAc), 14) == 16352 && FirstSymbol(Counts(ChromaAc), 14) == 40
    ensures FirstCode(Counts(ChromaAc), 15) == 32706 && FirstSymbol(Counts(ChromaAc), 15) == 41
    ensures FirstCode(Counts(ChromaAc), 16) == 65416 && FirstSymbol(Counts(ChromaAc), 16) == 43
    ensures FirstCode(Counts(ChromaAc), 17) == 131070 && FirstSymbol(Counts(ChromaAc), 17) == 162
  {
  }

  lemma ChromaAcBelow6(v: nat)
    requires v < 6
    ensures Good(ChromaAc, v)
  {
    hide FirstCode, FirstSymbol, Counts;
    ChromaAcFirsts();
    assert v == 0 || v == 1 || v == 2 || v == 3 || v == 4 || v == 5;
  }

  lemma ChromaAcBelow16(v: nat)
    requires 6 <= v < 16
    ensures Good(ChromaAc, v)
  {
    hide FirstCode, FirstSymbol, Counts;
    ChromaAcFirsts();
    assert v == 6 || v == 7 || v == 8 || v == 9 || v == 10 || v == 11 || v == 12 || v == 13 || v == 14 || v == 15;
  }

  lemma ChromaAcBelow64(v: nat)
    requires 16 <= v < 64
    ensures Good(ChromaAc, v)
  {
    hide FirstCode, FirstSymbol, Counts;
    ChromaAcFirsts();
    if v / 16 == 1 { OfSixteen(v, 1); }
    else if v / 16 == 2 { OfSixteen(v, 2); }
    else { OfSixteen(v, 3); }
  }

  lemma ChromaAcBelow128(v: nat)
    requires 64 <= v < 128
    ensures Good(ChromaAc, v)
  {
    hide FirstCode, FirstSymbol, Counts;
    ChromaAcFirsts();
    if v / 16 == 4 { OfSixteen(v, 4); }
    else if v / 16 == 5 { OfSixteen(v, 5); }
    else if v / 16 == 6 { OfSixteen(v, 6); }
    else { OfSixteen(v, 7); }
  }

  lemma ChromaAcBelow192(v: nat)
    requires 128 <= v < 192
    ensures Good(ChromaAc, v)
  {
    hide FirstCode, FirstSymbol, Counts;
    ChromaAcFirsts();
    if v / 16 == 8 { OfSixteen(v, 8); }
    else if v / 16 == 9 { OfSixteen(v, 9); }
    else if v / 16 == 10 { OfSixteen(v, 10); }
    else { OfSixteen(v, 11); }
  }

  lemma ChromaAcBelow256(v: nat)
    requires 192 <= v < 256
    ensures Good(ChromaAc, v)
  {
    hide FirstCode, FirstSymbol, Counts;
    ChromaAcFirsts();
    if v / 16 == 12 { OfSixteen(v, 12); }
    else if v / 16 == 13 { OfSixteen(v, 13); }
    else if v / 16 == 14 { OfSixteen(v, 14); }
    else { OfSixteen(v, 15); }
  }

  // ----- all four

  lemma Blank(t: Standard, v: nat)
    requires OfDc(t) && v >= 16
    ensures Good(t, v)
  {
  }

  /** Every entry of every table. */
  lemma AllGood(t: Standard, v: nat)
    requires v < 256
    ensures Good(t, v)
  {
    hide Good;
    match t
    case LumaDc => if v < 16 { LumaDcBelow16(v); } else { Blank(t, v); }
    case ChromaDc => if v < 16 { ChromaDcBelow16(v); } else { Blank(t, v); }
    case LumaAc =>
      if v < 6 { LumaAcBelow6(v); }
      else if v < 16 { LumaAcBelow16(v); }
      else if v < 64 { LumaAcBelow64(v); }
      else if v < 128 { LumaAcBelow128(v); }
      else if v < 192 { LumaAcBelow192(v); }
      else { LumaAcBelow256(v); }
    case ChromaAc =>
      if v < 6 { ChromaAcBelow6(v); }
      else if v < 16 { ChromaAcBelow16(v); }
      else if v < 64 { ChromaAcBelow64(v); }
      else if v < 128 { ChromaAcBelow128(v); }
      else if v < 192 { ChromaAcBelow192(v); }
      else { ChromaAcBelow256(v); }
  }

  lemma LastFirst(t: Standard)
    ensures FirstCode(Counts(t), 17) <= 0x2_0000 && FirstSymbol(Counts(t), 17) <= 255
  {
    hide FirstCode, FirstSymbol, Counts;
    match t
    case LumaDc => LumaDcFirsts();
    case LumaAc => LumaAcFirsts();
    case ChromaDc => ChromaDcFirsts();
    case ChromaAc => ChromaAcFirsts();
  }

  lemma GoodIsRight(t: Standard, v: nat)
    requires v < 256 && Good(t, v)
    ensures Right(WriterTable(t), Counts(t), Symbols(t), v) && (Needed(OfDc(t), v) ==> WriterTable(t)[v].length > 0)
  {
    hide FirstCode, FirstSymbol, EntryOf, SymbolOf, Counts, Needed;
  }

  /** The writer's table is that of the counts and symbols. */
  ghost predicate TableSound(ht: seq<Entry>, count: seq<nat>, values: seq<byte>) {
    && |count| == 16 && |values| == 256 && Table(ht)
    && |Sizes(count, 16)| <= 255 && Fits(Sizes(count, 16)) && Agrees(ht, Sizes(count, 16), values)
  }

  lemma SoundFromRight(ht: seq<Entry>, count: seq<nat>, values: seq<byte>)
    requires |ht| == |values| == 256 && |count| == 16 && FirstCode(count, 17) <= 0x2_0000 && FirstSymbol(count, 17) <= 255
    requires forall v :: 0 <= v < 256 ==> Right(ht, count, values, v)
    ensures TableSound(ht, count, values)
  {
    hide Sizes, Table, Fits, Agrees, Right, FirstCode, FirstSymbol;
    Pow2Values();
    RoomFromLast(count, 17);
    RoomIsFit(count);
    SizesLength(count, 16);
    RightIsTable(ht, count, values);
    AllRight(ht, count, values);
  }

  /** Each of the writer's tables is the canonical code of its counts and symbols, and has a code for every
      symbol that is needed. */
  lemma Sound(t: Standard)
    ensures TableSound(WriterTable(t), Counts(t), Symbols(t))
    ensures forall v :: 0 <= v < 256 ==>
      Right(WriterTable(t), Counts(t), Symbols(t), v) && (Needed(OfDc(t), v) ==> WriterTable(t)[v].length > 0)
  {
    hide FirstCode, FirstSymbol, Counts, WriterTable, Symbols, TableSound, Good, Right, Needed;
    forall v: nat | v < 256
      ensures Right(WriterTable(t), Counts(t), Symbols(t), v) && (Needed(OfDc(t), v) ==> WriterTable(t)[v].length > 0)
    {
      AllGood(t, v);
      GoodIsRight(t, v);
    }
    LastFirst(t);
    SoundFromRight(WriterTable(t), Counts(t), Symbols(t));
  }
}
