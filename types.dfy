/** Register codec of the ADS131M driver.

    Every enumerated register field is a datatype with a total code table
    (`XFromCode`, defined for every code of the field's width, alias codes
    included) and its canonical code (`XCode`). Every device register is a
    record with a decoder from, and (where the driver writes the register) an
    encoder to, its 16-bit register word or its [MSB, LSB] pair of words. */
module Types {

  // ---------------------------------------------------------------------------
  // Word-level helpers

  /** Two register words in the order [MSB, LSB]. */
  type RegisterWords = s: seq<bv16> | |s| == 2 witness [0, 0]

  /** An unsigned 24-bit register value. */
  type U24 = x: bv32 | x < 0x100_0000

  /** An unsigned 10-bit register value. */
  type U10 = x: bv16 | x < 0x400

  /** An unsigned 4-bit register value. */
  type U4 = x: bv8 | x < 0x10

  /** The code of a boolean field: `u16::from(b)`. */
  function BoolBit(b: bool): bv16
  {
    if b then 1 else 0
  }

  /** Whether bit `bit` of `word` is set. */
  predicate IsBitSet(word: bv16, bit: bv16)
    requires bit < 16
  {
    word & (1 << bit) != 0
  }

  /** The truncating cast `v as u16`: the low 16 bits of `v`. */
  function LowHalf(v: bv32): bv16
  {
    (v & 0xFFFF) as bv16
  }

  /** The 24-bit value packed into the top 24 bits of a pair of words,
      `(words[0] as u32) << 8 | (words[1] as u32) >> 8`. It always fits the
      24-bit type, so the `u24::new` it feeds never fails. */
  function PackU24(words: RegisterWords): (v: bv32)
    ensures v < 0x100_0000
    ensures LowHalf(v >> 8) == words[0]
    ensures v & 0xFF == (words[1] >> 8) as bv32
  {
    ((words[0] as bv32) << 8) | ((words[1] as bv32) >> 8)
  }

  // ---------------------------------------------------------------------------
  // Enumerated fields

  /** SPI word size; 2-bit field, every code used. */
  datatype WordLength = Bits16 | Bits24 | Bits32Zero | Bits32Signed

  const WordLengthDefault: WordLength := Bits24

  function WordLengthFromCode(c: bv16): WordLength
    requires c < 4
  {
    if c == 0 then Bits16
    else if c == 1 then Bits24
    else if c == 2 then Bits32Zero
    else Bits32Signed
  }

  function WordLengthCode(l: WordLength): (c: bv16)
    ensures c < 4 && WordLengthFromCode(c) == l
  {
    match l
    case Bits16 => 0
    case Bits24 => 1
    case Bits32Zero => 2
    case Bits32Signed => 3
  }

  /** CRC type; 1-bit field. */
  datatype CrcType = Ccitt | Ansi

  const CrcTypeDefault: CrcType := Ccitt

  function CrcTypeFromCode(c: bv16): CrcType
    requires c < 2
  {
    if c == 0 then Ccitt else Ansi
  }

  function CrcTypeCode(t: CrcType): (c: bv16)
    ensures c < 2 && CrcTypeFromCode(c) == t
  {
    match t
    case Ccitt => 0
    case Ansi => 1
  }

  /** DRDY pin source; 2-bit field, code 3 is an alias of MostLeading. */
  datatype DrdySource = MostLagging | LogicOr | MostLeading

  const DrdySourceDefault: DrdySource := MostLagging

  function DrdySourceFromCode(c: bv16): DrdySource
    requires c < 4
  {
    if c == 0 then MostLagging
    else if c == 1 then LogicOr
    else MostLeading
  }

  function DrdySourceCode(s: DrdySource): (c: bv16)
    ensures c < 3 && DrdySourceFromCode(c) == s
  {
    match s
    case MostLagging => 0
    case LogicOr => 1
    case MostLeading => 2
  }

  /** DRDY state while no conversion data is available; 1-bit field. */
  datatype DrdyNotReadyState = LogicHigh | HighImpedance

  const DrdyNotReadyStateDefault: DrdyNotReadyState := LogicHigh

  function DrdyNotReadyStateFromCode(c: bv16): DrdyNotReadyState
    requires c < 2
  {
    if c == 0 then LogicHigh else HighImpedance
  }

  function DrdyNotReadyStateCode(s: DrdyNotReadyState): (c: bv16)
    ensures c < 2 && DrdyNotReadyStateFromCode(c) == s
  {
    match s
    case LogicHigh => 0
    case HighImpedance => 1
  }

  /** DRDY state while conversion data is available; 1-bit field. */
  datatype DrdyReadyState = LogicLow | LowPulse

  const DrdyReadyStateDefault: DrdyReadyState := LogicLow

  function DrdyReadyStateFromCode(c: bv16): DrdyReadyState
    requires c < 2
  {
    if c == 0 then LogicLow else LowPulse
  }

  function DrdyReadyStateCode(s: DrdyReadyState): (c: bv16)
    ensures c < 2 && DrdyReadyStateFromCode(c) == s
  {
    match s
    case LogicLow => 0
    case LowPulse => 1
  }

  /** Oversampling ratio; 4-bit field, codes 9 to 15 are aliases of Osr64
      (canonical code 8). */
  datatype OversamplingRatio =
    Osr64 | Osr128 | Osr256 | Osr512 | Osr1024 | Osr2048 | Osr4096 | Osr8192 | Osr16256

  const OversamplingRatioDefault: OversamplingRatio := Osr1024

  function OversamplingRatioFromCode(c: bv16): OversamplingRatio
    requires c < 16
  {
    if c == 0 then Osr128
    else if c == 1 then Osr256
    else if c == 2 then Osr512
    else if c == 3 then Osr1024
    else if c == 4 then Osr2048
    else if c == 5 then Osr4096
    else if c == 6 then Osr8192
    else if c == 7 then Osr16256
    else Osr64
  }

  function OversamplingRatioCode(r: OversamplingRatio): (c: bv16)
    ensures c < 9 && OversamplingRatioFromCode(c) == r
  {
    match r
    case Osr64 => 8
    case Osr128 => 0
    case Osr256 => 1
    case Osr512 => 2
    case Osr1024 => 3
    case Osr2048 => 4
    case Osr4096 => 5
    case Osr8192 => 6
    case Osr16256 => 7
  }

  /** Power mode; 2-bit field, code 3 is an alias of HighResolution. */
  datatype PowerMode = VeryLowPower | LowPower | HighResolution

  const PowerModeDefault: PowerMode := HighResolution

  function PowerModeFromCode(c: bv16): PowerMode
    requires c < 4
  {
    if c == 0 then VeryLowPower
    else if c == 1 then LowPower
    else HighResolution
  }

  function PowerModeCode(p: PowerMode): (c: bv16)
    ensures c < 3 && PowerModeFromCode(c) == p
  {
    match p
    case VeryLowPower => 0
    case LowPower => 1
    case HighResolution => 2
  }

  /** PGA gain; 3-bit field, every code used. */
  datatype PgaGain = Gain1 | Gain2 | Gain4 | Gain8 | Gain16 | Gain32 | Gain64 | Gain128

  const PgaGainDefault: PgaGain := Gain1

  function PgaGainFromCode(c: bv16): PgaGain
    requires c < 8
  {
    if c == 0 then Gain1
    else if c == 1 then Gain2
    else if c == 2 then Gain4
    else if c == 3 then Gain8
    else if c == 4 then Gain16
    else if c == 5 then Gain32
    else if c == 6 then Gain64
    else Gain128
  }

  function PgaGainCode(g: PgaGain): (c: bv16)
    ensures c < 8 && PgaGainFromCode(c) == g
  {
    match g
    case Gain1 => 0
    case Gain2 => 1
    case Gain4 => 2
    case Gain8 => 3
    case Gain16 => 4
    case Gain32 => 5
    case Gain64 => 6
    case Gain128 => 7
  }

  /** Global-chop delay in modulator clock periods; 4-bit field, every code used. */
  datatype GlobalChopDelay =
    Delay2 | Delay4 | Delay8 | Delay16 | Delay32 | Delay64 | Delay128 | Delay256
  | Delay512 | Delay1024 | Delay2048 | Delay4096 | Delay8192 | Delay16384 | Delay32768 | Delay65536

  const GlobalChopDelayDefault: GlobalChopDelay := Delay16

  function GlobalChopDelayFromCode(c: bv16): GlobalChopDelay
    requires c < 16
  {
    if c == 0 then Delay2
    else if c == 1 then Delay4
    else if c == 2 then Delay8
    else if c == 3 then Delay16
    else if c == 4 then Delay32
    else if c == 5 then Delay64
    else if c == 6 then Delay128
    else if c == 7 then Delay256
    else if c == 8 then Delay512
    else if c == 9 then Delay1024
    else if c == 10 then Delay2048
    else if c == 11 then Delay4096
    else if c == 12 then Delay8192
    else if c == 13 then Delay16384
    else if c == 14 then Delay32768
    else Delay65536
  }

  function GlobalChopDelayCode(d: GlobalChopDelay): (c: bv16)
    ensures c < 16 && GlobalChopDelayFromCode(c) == d
  {
    match d
    case Delay2 => 0
    case Delay4 => 1
    case Delay8 => 2
    case Delay16 => 3
    case Delay32 => 4
    case Delay64 => 5
    case Delay128 => 6
    case Delay256 => 7
    case Delay512 => 8
    case Delay1024 => 9
    case Delay2048 => 10
    case Delay4096 => 11
    case Delay8192 => 12
    case Delay16384 => 13
    case Delay32768 => 14
    case Delay65536 => 15
  }

  /** Channels required to trigger current detection; 1-bit field. */
  datatype CurrentDetectChannels = AnyChannel | AllChannels

  const CurrentDetectChannelsDefault: CurrentDetectChannels := AnyChannel

  function CurrentDetectChannelsFromCode(c: bv16): CurrentDetectChannels
    requires c < 2
  {
    if c == 0 then AnyChannel else AllChannels
  }

  function CurrentDetectChannelsCode(s: CurrentDetectChannels): (c: bv16)
    ensures c < 2 && CurrentDetectChannelsFromCode(c) == s
  {
    match s
    case AnyChannel => 0
    case AllChannels => 1
  }

  /** Exceeded thresholds needed to trigger a detection; 3-bit field, every code used. */
  datatype CurrentDetectCount =
    Count1 | Count2 | Count4 | Count8 | Count16 | Count32 | Count64 | Count128

  const CurrentDetectCountDefault: CurrentDetectCount := Count1

  function CurrentDetectCountFromCode(c: bv16): CurrentDetectCount
    requires c < 8
  {
    if c == 0 then Count1
    else if c == 1 then Count2
    else if c == 2 then Count4
    else if c == 3 then Count8
    else if c == 4 then Count16
    else if c == 5 then Count32
    else if c == 6 then Count64
    else Count128
  }

  function CurrentDetectCountCode(n: CurrentDetectCount): (c: bv16)
    ensures c < 8 && CurrentDetectCountFromCode(c) == n
  {
    match n
    case Count1 => 0
    case Count2 => 1
    case Count4 => 2
    case Count8 => 3
    case Count16 => 4
    case Count32 => 5
    case Count64 => 6
    case Count128 => 7
  }

  /** Current-detect measurement length in conversion periods; 3-bit field,
      every code used. */
  datatype CurrentDetectLength =
    Len128 | Len256 | Len512 | Len768 | Len1280 | Len1792 | Len2560 | Len3584

  const CurrentDetectLengthDefault: CurrentDetectLength := Len128

  function CurrentDetectLengthFromCode(c: bv16): CurrentDetectLength
    requires c < 8
  {
    if c == 0 then Len128
    else if c == 1 then Len256
    else if c == 2 then Len512
    else if c == 3 then Len768
    else if c == 4 then Len1280
    else if c == 5 then Len1792
    else if c == 6 then Len2560
    else Len3584
  }

  function CurrentDetectLengthCode(n: CurrentDetectLength): (c: bv16)
    ensures c < 8 && CurrentDetectLengthFromCode(c) == n
  {
    match n
    case Len128 => 0
    case Len256 => 1
    case Len512 => 2
    case Len768 => 3
    case Len1280 => 4
    case Len1792 => 5
    case Len2560 => 6
    case Len3584 => 7
  }

  /** DC block filter setting; 4-bit field, every code used. */
  datatype DcBlock =
    Disabled | OneOver4 | OneOver8 | OneOver16 | OneOver32 | OneOver64 | OneOver128 | OneOver256
  | OneOver512 | OneOver1024 | OneOver2048 | OneOver4096 | OneOver8192 | OneOver16384
  | OneOver32768 | OneOver65536

  const DcBlockDefault: DcBlock := Disabled

  function DcBlockFromCode(c: bv16): DcBlock
    requires c < 16
  {
    if c == 0 then Disabled
    else if c == 1 then OneOver4
    else if c == 2 then OneOver8
    else if c == 3 then OneOver16
    else if c == 4 then OneOver32
    else if c == 5 then OneOver64
    else if c == 6 then OneOver128
    else if c == 7 then OneOver256
    else if c == 8 then OneOver512
    else if c == 9 then OneOver1024
    else if c == 10 then OneOver2048
    else if c == 11 then OneOver4096
    else if c == 12 then OneOver8192
    else if c == 13 then OneOver16384
    else if c == 14 then OneOver32768
    else OneOver65536
  }

  function DcBlockCode(b: DcBlock): (c: bv16)
    ensures c < 16 && DcBlockFromCode(c) == b
  {
    match b
    case Disabled => 0
    case OneOver4 => 1
    case OneOver8 => 2
    case OneOver16 => 3
    case OneOver32 => 4
    case OneOver64 => 5
    case OneOver128 => 6
    case OneOver256 => 7
    case OneOver512 => 8
    case OneOver1024 => 9
    case OneOver2048 => 10
    case OneOver4096 => 11
    case OneOver8192 => 12
    case OneOver16384 => 13
    case OneOver32768 => 14
    case OneOver65536 => 15
  }

  /** Channel input selection; 2-bit field, every code used. */
  datatype ChannelMux = AnalogIn | Shorted | PositiveTest | NegativeTest

  const ChannelMuxDefault: ChannelMux := AnalogIn

  function ChannelMuxFromCode(c: bv16): ChannelMux
    requires c < 4
  {
    if c == 0 then AnalogIn
    else if c == 1 then Shorted
    else if c == 2 then PositiveTest
    else NegativeTest
  }

  function ChannelMuxCode(m: ChannelMux): (c: bv16)
    ensures c < 4 && ChannelMuxFromCode(c) == m
  {
    match m
    case AnalogIn => 0
    case Shorted => 1
    case PositiveTest => 2
    case NegativeTest => 3
  }

  /** Decoding a field code and taking the canonical code back gives the code
      itself, for every code of every field without aliases: these tables are
      bijections. */
  lemma CodeTablesWithoutAliases(c: bv16)
    ensures c < 4 ==> WordLengthCode(WordLengthFromCode(c)) == c
    ensures c < 2 ==> CrcTypeCode(CrcTypeFromCode(c)) == c
    ensures c < 2 ==> DrdyNotReadyStateCode(DrdyNotReadyStateFromCode(c)) == c
    ensures c < 2 ==> DrdyReadyStateCode(DrdyReadyStateFromCode(c)) == c
    ensures c < 8 ==> PgaGainCode(PgaGainFromCode(c)) == c
    ensures c < 16 ==> GlobalChopDelayCode(GlobalChopDelayFromCode(c)) == c
    ensures c < 2 ==> CurrentDetectChannelsCode(CurrentDetectChannelsFromCode(c)) == c
    ensures c < 8 ==> CurrentDetectCountCode(CurrentDetectCountFromCode(c)) == c
    ensures c < 8 ==> CurrentDetectLengthCode(CurrentDetectLengthFromCode(c)) == c
    ensures c < 16 ==> DcBlockCode(DcBlockFromCode(c)) == c
    ensures c < 4 ==> ChannelMuxCode(ChannelMuxFromCode(c)) == c
  {
  }

  /** The fields with aliases: every code decodes, the canonical codes decode
      to the value that has them, and each alias code decodes to the same value
      as its canonical code. */
  lemma CodeTablesWithAliases(c: bv16)
    ensures c < 4 ==> DrdySourceCode(DrdySourceFromCode(c)) == (if c == 3 then 2 else c)
    ensures c < 16 ==> OversamplingRatioCode(OversamplingRatioFromCode(c)) == (if c >= 8 then 8 else c)
    ensures c < 4 ==> PowerModeCode(PowerModeFromCode(c)) == (if c == 3 then 2 else c)
  {
  }

  // ---------------------------------------------------------------------------
  // ID register

  /** Device ID register: the channel count. */
  datatype Id = Id(channelCount: U4)

  function IdFromWord(word: bv16): Id
  {
    Id(((word >> 8) & 0xF) as bv8)
  }

  /** The channel count is bits 11..8 of the ID word and nothing else: the
      other bits do not matter, and every 4-bit count is read back from those
      bits. */
  lemma IdChannelCountField(word: bv16, n: U4)
    ensures IdFromWord(word) == IdFromWord(word & 0x0F00)
    ensures IdFromWord((n as bv16) << 8).channelCount == n
  {
  }

  /** The ID words of the 2-, 3-, 4-, 6- and 8-channel devices. */
  lemma IdDeviceWords()
    ensures IdFromWord(0x2200).channelCount == 2
    ensures IdFromWord(0x2300).channelCount == 3
    ensures IdFromWord(0x2400).channelCount == 4
    ensures IdFromWord(0x2600).channelCount == 6
    ensures IdFromWord(0x2800).channelCount == 8
  {
  }

  // ---------------------------------------------------------------------------
  // STATUS register

  /** Device STATUS register (read only). */
  datatype Status = Status(
    lock: bool,
    resync: bool,
    regMapCrcErr: bool,
    spiCrcErr: bool,
    crcType: CrcType,
    reset: bool,
    wordLength: WordLength,
    drdy0: bool,
    drdy1: bool,
    drdy2: bool,
    drdy3: bool)

  function StatusFromWord(word: bv16): Status
  {
    Status(
      IsBitSet(word, 15),
      IsBitSet(word, 14),
      IsBitSet(word, 13),
      IsBitSet(word, 12),
      CrcTypeFromCode((word >> 11) & 0x1),
      IsBitSet(word, 10),
      WordLengthFromCode((word >> 8) & 0x3),
      IsBitSet(word, 0),
      IsBitSet(word, 1),
      IsBitSet(word, 2),
      IsBitSet(word, 3))
  }

  /** The status after power-up: only the reset flag is raised, with the
      default CRC type and the 24-bit word length; it is what the status word
      0x0500 decodes to. */
  function StatusDefault(): (s: Status)
    ensures StatusFromWord(0x0500) == s
    ensures s.reset && !s.lock && !s.drdy0
  {
    Status(false, false, false, false, CrcTypeDefault, true, WordLengthDefault,
           false, false, false, false)
  }

  // ---------------------------------------------------------------------------
  // MODE register

  /** Device MODE register. */
  datatype Mode = Mode(
    regCrcEnable: bool,
    spiCrcEnable: bool,
    crcType: CrcType,
    reset: bool,
    wordLength: WordLength,
    spiTimeout: bool,
    drdySource: DrdySource,
    drdyNotReadyState: DrdyNotReadyState,
    drdyReadyState: DrdyReadyState)

  function ModeFromWord(word: bv16): Mode
  {
    Mode(
      IsBitSet(word, 13),
      IsBitSet(word, 12),
      CrcTypeFromCode((word >> 11) & 0x1),
      IsBitSet(word, 10),
      WordLengthFromCode((word >> 8) & 0x3),
      IsBitSet(word, 4),
      DrdySourceFromCode((word >> 2) & 0x3),
      DrdyNotReadyStateFromCode((word >> 1) & 0x1),
      DrdyReadyStateFromCode(word & 0x1))
  }

  /** The MODE word of a configuration: decoding it gives the configuration
      back, and the reserved bits 15, 14 and 7..5 stay clear. */
  function ModeToWord(m: Mode): (word: bv16)
    ensures ModeFromWord(word) == m
    ensures word & 0xC0E0 == 0
  {
    (BoolBit(m.regCrcEnable) << 13)
    | (BoolBit(m.spiCrcEnable) << 12)
    | (CrcTypeCode(m.crcType) << 11)
    | (BoolBit(m.reset) << 10)
    | (WordLengthCode(m.wordLength) << 8)
    | (BoolBit(m.spiTimeout) << 4)
    | (DrdySourceCode(m.drdySource) << 2)
    | (DrdyNotReadyStateCode(m.drdyNotReadyState) << 1)
    | DrdyReadyStateCode(m.drdyReadyState)
  }

  /** The power-up MODE configuration, whose word is 0x0510. */
  function ModeDefault(): (m: Mode)
    ensures ModeToWord(m) == 0x0510
    ensures ModeFromWord(0x0510) == m
  {
    Mode(false, false, CrcTypeDefault, true, WordLengthDefault, true,
         DrdySourceDefault, DrdyNotReadyStateDefault, DrdyReadyStateDefault)
  }

  /** Decoding a MODE word and encoding it again clears the reserved bits and
      replaces the DRDY-source alias code 3 by its canonical code 2; every
      other bit survives. */
  lemma ModeReencode(word: bv16)
    ensures ModeToWord(ModeFromWord(word))
         == if (word >> 2) & 0x3 == 0x3 then word & 0x3F1B else word & 0x3F1F
  {
  }

  /** The DRDY-source alias: code 3 and code 2 in bits 3..2 give the same record. */
  lemma ModeDrdySourceAlias(word: bv16)
    requires (word >> 2) & 0x3 == 0x3
    ensures ModeFromWord(word) == ModeFromWord(word & !0x0004)
  {
  }

  /** STATUS and MODE place the CRC type, the reset flag and the word length
      at the same bits, so one word reads the same in both. */
  lemma StatusModeSharedFields(word: bv16)
    ensures StatusFromWord(word).crcType == ModeFromWord(word).crcType
    ensures StatusFromWord(word).reset == ModeFromWord(word).reset
    ensures StatusFromWord(word).wordLength == ModeFromWord(word).wordLength
  {
  }

  // ---------------------------------------------------------------------------
  // CLOCK register

  /** Device CLOCK register. */
  datatype Clock = Clock(
    channel0En: bool,
    channel1En: bool,
    channel2En: bool,
    channel3En: bool,
    oversamplingRatio: OversamplingRatio,
    powerMode: PowerMode)

  function ClockFromWord(word: bv16): Clock
  {
    Clock(
      IsBitSet(word, 8),
      IsBitSet(word, 9),
      IsBitSet(word, 10),
      IsBitSet(word, 11),
      OversamplingRatioFromCode((word >> 2) & 0xF),
      PowerModeFromCode(word & 0x3))
  }

  /** The CLOCK word of a configuration: decoding it gives the configuration
      back, and the reserved bits 15..12 and 7..6 stay clear. The channel-0
      bit is ORed in twice, which changes nothing. */
  function ClockToWord(c: Clock): (word: bv16)
    ensures ClockFromWord(word) == c
    ensures word & 0xF0C0 == 0
  {
    (BoolBit(c.channel3En) << 11)
    | (BoolBit(c.channel2En) << 10)
    | (BoolBit(c.channel1En) << 9)
    | (BoolBit(c.channel0En) << 8)
    | (BoolBit(c.channel0En) << 8)
    | (OversamplingRatioCode(c.oversamplingRatio) << 2)
    | PowerModeCode(c.powerMode)
  }

  /** The power-up CLOCK configuration, whose word is 0x0F0E. */
  function ClockDefault(): (c: Clock)
    ensures ClockToWord(c) == 0x0F0E
    ensures ClockFromWord(0x0F0E) == c
  {
    Clock(true, true, true, true, OversamplingRatioDefault, PowerModeDefault)
  }

  /** Decoding a CLOCK word that uses only canonical codes and encoding it
      again keeps exactly the channel, ratio and power-mode bits. */
  lemma ClockReencode(word: bv16)
    requires (word >> 2) & 0xF <= 8 && word & 0x3 != 0x3
    ensures ClockToWord(ClockFromWord(word)) == word & 0x0F3F
  {
  }

  /** The CLOCK aliases: a ratio code 9 to 15 reads as code 8, and power-mode
      code 3 reads as code 2. */
  lemma ClockAliases(word: bv16)
    ensures (word >> 2) & 0xF >= 9 ==>
      ClockFromWord(word) == ClockFromWord((word & !0x003C) | (8 << 2))
    ensures word & 0x3 == 0x3 ==> ClockFromWord(word) == ClockFromWord(word & !0x0001)
  {
  }

  // ---------------------------------------------------------------------------
  // GAIN1 register

  /** Device GAIN1 register: one PGA gain per channel. */
  datatype Gain = Gain(pgaGain0: PgaGain, pgaGain1: PgaGain, pgaGain2: PgaGain, pgaGain3: PgaGain)

  function GainFromWord(word: bv16): Gain
  {
    Gain(
      PgaGainFromCode(word & 0x7),
      PgaGainFromCode((word >> 4) & 0x7),
      PgaGainFromCode((word >> 8) & 0x7),
      PgaGainFromCode((word >> 12) & 0x7))
  }

  /** The GAIN1 word of a configuration: decoding it gives the configuration
      back, and bits 3, 7, 11 and 15 stay clear. */
  function GainToWord(g: Gain): (word: bv16)
    ensures GainFromWord(word) == g
    ensures word & 0x8888 == 0
  {
    PgaGainCode(g.pgaGain0)
    | (PgaGainCode(g.pgaGain1) << 4)
    | (PgaGainCode(g.pgaGain2) << 8)
    | (PgaGainCode(g.pgaGain3) << 12)
  }

  /** The default gains (all 1x), whose word is 0. */
  function GainDefault(): (g: Gain)
    ensures GainToWord(g) == 0
    ensures GainFromWord(0) == g
  {
    Gain(PgaGainDefault, PgaGainDefault, PgaGainDefault, PgaGainDefault)
  }

  /** Decoding a GAIN1 word and encoding it again keeps exactly the four gain fields. */
  lemma GainReencode(word: bv16)
    ensures GainToWord(GainFromWord(word)) == word & 0x7777
  {
  }

  // ---------------------------------------------------------------------------
  // CFG register

  /** Device CFG register. */
  datatype Config = Config(
    globalChopDelay: GlobalChopDelay,
    globalChopEnable: bool,
    currentDetectChannels: CurrentDetectChannels,
    currentDetectCount: CurrentDetectCount,
    currentDetectLength: CurrentDetectLength,
    currentDetectEnable: bool)

  function ConfigFromWord(word: bv16): Config
  {
    Config(
      GlobalChopDelayFromCode((word >> 9) & 0xF),
      IsBitSet(word, 8),
      CurrentDetectChannelsFromCode((word >> 7) & 0x1),
      CurrentDetectCountFromCode((word >> 4) & 0x7),
      CurrentDetectLengthFromCode((word >> 1) & 0x7),
      IsBitSet(word, 0))
  }

  /** The CFG word of a configuration: decoding it gives the configuration
      back, and the reserved bits 15..13 stay clear. */
  function ConfigToWord(c: Config): (word: bv16)
    ensures ConfigFromWord(word) == c
    ensures word & 0xE000 == 0
  {
    (GlobalChopDelayCode(c.globalChopDelay) << 9)
    | (BoolBit(c.globalChopEnable) << 8)
    | (CurrentDetectChannelsCode(c.currentDetectChannels) << 7)
    | (CurrentDetectCountCode(c.currentDetectCount) << 4)
    | (CurrentDetectLengthCode(c.currentDetectLength) << 1)
    | BoolBit(c.currentDetectEnable)
  }

  /** The default CFG configuration, whose word is 0x0600. */
  function ConfigDefault(): (c: Config)
    ensures ConfigToWord(c) == 0x0600
    ensures ConfigFromWord(0x0600) == c
  {
    Config(GlobalChopDelayDefault, false, CurrentDetectChannelsDefault,
           CurrentDetectCountDefault, CurrentDetectLengthDefault, false)
  }

  /** Decoding a CFG word and encoding it again keeps bits 12..0. */
  lemma ConfigReencode(word: bv16)
    ensures ConfigToWord(ConfigFromWord(word)) == word & 0x1FFF
  {
    var c := ConfigFromWord(word);
    var delay, channels, count, length := (word >> 9) & 0xF, (word >> 7) & 0x1, (word >> 4) & 0x7, (word >> 1) & 0x7;
    CodeTablesWithoutAliases(delay);
    CodeTablesWithoutAliases(channels);
    CodeTablesWithoutAliases(count);
    CodeTablesWithoutAliases(length);
    assert BoolBit(c.globalChopEnable) == (word >> 8) & 1;
    assert BoolBit(c.currentDetectEnable) == word & 1;
    ConfigFields(word);
  }

  /** The CFG fields, put back in place, make up bits 12..0 of the word. */
  lemma ConfigFields(word: bv16)
    ensures (((word >> 9) & 0xF) << 9) | (((word >> 8) & 1) << 8) | (((word >> 7) & 0x1) << 7)
          | (((word >> 4) & 0x7) << 4) | (((word >> 1) & 0x7) << 1) | (word & 1) == word & 0x1FFF
  {
  }

  // ---------------------------------------------------------------------------
  // THRSHLD_MSB / THRSHLD_LSB registers

  /** Current-detect threshold and DC block filter. */
  datatype Threshold = Threshold(currentDetectThreshold: U24, dcBlock: DcBlock)

  function ThresholdFromWords(words: RegisterWords): Threshold
  {
    Threshold(PackU24(words), DcBlockFromCode(words[1] & 0xF))
  }

  /** The [MSB, LSB] words of a threshold configuration: decoding them gives
      it back for every 24-bit threshold and every DC block setting, and bits
      7..4 of the LSB word stay clear. */
  function ThresholdToWords(t: Threshold): (words: RegisterWords)
    ensures ThresholdFromWords(words) == t
    ensures words[1] & 0x00F0 == 0
  {
    var threshold := t.currentDetectThreshold;
    [LowHalf(threshold >> 8), (LowHalf(threshold) << 8) | DcBlockCode(t.dcBlock)]
  }

  /** The default threshold configuration, whose words are [0, 0]. */
  function ThresholdDefault(): (t: Threshold)
    ensures ThresholdToWords(t) == [0, 0]
    ensures ThresholdFromWords([0, 0]) == t
  {
    Threshold(0, DcBlockDefault)
  }

  /** Decoding threshold words and encoding them again keeps the MSB word and
      clears bits 7..4 of the LSB word. */
  lemma ThresholdReencode(words: RegisterWords)
    ensures ThresholdToWords(ThresholdFromWords(words)) == [words[0], words[1] & 0xFF0F]
  {
  }

  // ---------------------------------------------------------------------------
  // CHx_CFG register

  /** Per-channel configuration: phase delay, DC block disable, input mux. */
  datatype ChannelConfig = ChannelConfig(phase: U10, dcBlockDisable: bool, mux: ChannelMux)

  function ChannelConfigFromWord(word: bv16): ChannelConfig
  {
    ChannelConfig(word >> 6, IsBitSet(word, 2), ChannelMuxFromCode(word & 0x3))
  }

  /** The CHx_CFG word of a channel configuration: decoding it gives the
      configuration back for every 10-bit phase, and bits 5..3 stay clear. */
  function ChannelConfigToWord(c: ChannelConfig): (word: bv16)
    ensures ChannelConfigFromWord(word) == c
    ensures word & 0x0038 == 0
  {
    (c.phase << 6) | (BoolBit(c.dcBlockDisable) << 2) | ChannelMuxCode(c.mux)
  }

  /** The default channel configuration, whose word is 0. */
  function ChannelConfigDefault(): (c: ChannelConfig)
    ensures ChannelConfigToWord(c) == 0
    ensures ChannelConfigFromWord(0) == c
  {
    ChannelConfig(0, false, ChannelMuxDefault)
  }

  /** Decoding a CHx_CFG word and encoding it again clears exactly bits 5..3. */
  lemma ChannelConfigReencode(word: bv16)
    ensures ChannelConfigToWord(ChannelConfigFromWord(word)) == word & 0xFFC7
  {
  }

  // ---------------------------------------------------------------------------
  // CHx_OCAL_MSB / CHx_OCAL_LSB registers

  /** Per-channel offset calibration. */
  datatype OffsetCal = OffsetCal(offset: U24)

  function OffsetCalFromWords(words: RegisterWords): OffsetCal
  {
    OffsetCal(PackU24(words))
  }

  /** The [MSB, LSB] words of an offset calibration: decoding them gives it
      back for every 24-bit value, and the low byte of the LSB word is clear. */
  function OffsetCalToWords(o: OffsetCal): (words: RegisterWords)
    ensures OffsetCalFromWords(words) == o
    ensures words[1] & 0x00FF == 0
  {
    var offset := o.offset;
    [LowHalf(offset >> 8), LowHalf(offset) << 8]
  }

  /** The default offset calibration, whose words are [0, 0]. */
  function OffsetCalDefault(): (o: OffsetCal)
    ensures OffsetCalToWords(o) == [0, 0]
    ensures OffsetCalFromWords([0, 0]) == o
  {
    OffsetCal(0)
  }

  /** Decoding offset-calibration words and encoding them again keeps the top
      24 bits and clears the low byte of the LSB word. */
  lemma OffsetCalReencode(words: RegisterWords)
    ensures OffsetCalToWords(OffsetCalFromWords(words)) == [words[0], words[1] & 0xFF00]
  {
  }

  // ---------------------------------------------------------------------------
  // CHx_GCAL_MSB / CHx_GCAL_LSB registers

  /** Per-channel gain calibration. */
  datatype GainCal = GainCal(gain: U24)

  function GainCalFromWords(words: RegisterWords): GainCal
  {
    GainCal(PackU24(words))
  }

  /** The [MSB, LSB] words of a gain calibration: decoding them gives it back
      for every 24-bit value, and the low byte of the LSB word is clear. */
  function GainCalToWords(g: GainCal): (words: RegisterWords)
    ensures GainCalFromWords(words) == g
    ensures words[1] & 0x00FF == 0
  {
    var gain := g.gain;
    [LowHalf(gain >> 8), LowHalf(gain) << 8]
  }

  /** The default gain calibration (unity gain, 0x800000), whose words are
      [0x8000, 0]. */
  function GainCalDefault(): (g: GainCal)
    ensures GainCalToWords(g) == [0x8000, 0]
    ensures GainCalFromWords([0x8000, 0]) == g
  {
    GainCal(0x80_0000)
  }

  /** Decoding gain-calibration words and encoding them again keeps the top
      24 bits and clears the low byte of the LSB word. */
  lemma GainCalReencode(words: RegisterWords)
    ensures GainCalToWords(GainCalFromWords(words)) == [words[0], words[1] & 0xFF00]
  {
  }
}
