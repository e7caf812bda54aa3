# Verification of the MLow voice codec and its packet layer

This project models the pure-Go MLow codec under `internal/voip/media/mlow` and the packet layer that carries it,
and proves what the two sides of each format owe each other.

The modules follow the program.

- **Range coder** (`Arith`, `RawSpec`, `RangeSpec`, `RangeEncoder`, `RangeDecoder`, `RangeRoundTrip`). The coder of
  RFC 6716, sections 4.1 and 5.1, is first written as interval arithmetic on unbounded integers. The encoder and the
  decoder are classes with the source's 32-bit registers, byte buffer, carry run and bit window; each is proved to keep
  denoting that interval. Ghost fields hold what has been encoded and what a decoder is still promised.
- **Tables** (`CdfTables`, `CdfCoding`). The builders that turn weight lists into cumulative tables, and coding against
  tables known to be strict.
- **Blocks of a frame** (`LsfCodec`, `PulseVector`, `PulseCodec`, `PulseModel`, `LogCurve`, `GainCodec`, `SmplMem`,
  `PitchCodec`, `BlockTracks`, `WireLaws`).
  For each block: a well-formedness predicate, the symbols it becomes, an encoder proved to write those symbols and a
  decoder proved to read them. Every decoder is also proved for arbitrary bytes: no error and a well-formed result.
  Decoders take ghost parameters that name the sent parameters and what follows them. A round trip cannot tell which
  table both sides agreed on, so `WireLaws` says of every block where each symbol stands and between which entries of
  which table.
- **Whole frame** (`FrameCodec`). Three internal frames share one body and one prediction; both sides thread it alike.
- **Signal code** (`Complex`, `Polynomial`, `Fft`, `FcbSearch`, `FcbRates`, `Lpc`, `Nlsf`, `PitchEnergy`, `Filters`)
  over exact reals: fast forms against plain definitions, and those against what they mean for polynomials, transforms
  and difference equations.
- **Voice activity** (`FixedPoint`, `FixedPointLaws`, `Vad`, `VadLaws`): the fixed-point detector with every 32-bit
  assignment typed, so overflow is excluded; its logarithm, power, root and sigmoid; and its response to signals with a
  known answer.
- **Packets** (`Rtp`, `Srtp`, `Stun`, `Red`, `PacketLaws`): round trips, and the layouts as numbers at byte places.

The tables that the codec expands from embedded seed files are parameters with a well-formedness predicate (`Ok`,
`TablesOk`): strictly rising cumulative tables of the right sizes, distinct contour numbers, run lengths that add up to
eight, consecutive blocks of a contour that differ by -1 to +2 (on which the place of every 65-entry delta window
rests), first-block ranges that hold their contours, and enough residual grids for each selector.
`CdfTables.TableShape` proves that whatever the builders make is strict. The split and run-length tables of the pulse
block are not in a seed: the code computes them by fixed-point arithmetic, and `PulseModel` (over `LogCurve` and
`FixedPoint`) proves that what it computes meets the pulse block's assumptions.

Four places where the code does less than its name or standard suggests, stated as the code has them:

- The SRTP receiver never lowers its rollover count and takes every step down of more than 32768 for a wrap. So index
  agreement is an exact condition on each step (`Srtp.RunExactly`), which in-order delivery meets and reordering at a
  wrap does not (`Srtp.ReorderedAtWrap`, `Srtp.NeverRecovers`). `Unprotect` cuts the tag off without comparing it.
- For the forward-error-correction rate the pulse search compares the maximum with the number of pulses before the new
  one, so that rate may keep one pulse more than its maximum. `FcbSearch.FecBound` says exactly when it does,
  `FcbRates.FecWithin` for which maxima it never does, and `FcbRates.TwoKeptOfOne` gives an input. With a maximum of
  zero, the only one the repository's own configuration uses, the bound holds.
- RTP headers whose CSRC count is not their list's length, or whose extension is not a whole number of words, encode
  without an error but do not decode to themselves (`Rtp.HeaderRoundTrip`).
- The fixed-point sigmoid is not monotone: it falls by two at two seams of its segments and nowhere else
  (`FixedPointLaws.SigmStep`).

## Model
| member | source | states |
|---|---|---|
| RangeSpec.TargetExact | internal/voip/media/mlow/rangecoder.go:97-112 | the decoder's frequency lands in a symbol's interval exactly when the code lies in the sub-interval the encoder narrowed to |
| RangeSpec.RenormInside | internal/voip/media/mlow/rangecoder.go:374-382 | renormalising never changes which byte strings lie inside an interval |
| RangeSpec.RunInside | internal/voip/media/mlow/rangecoder.go:384-399 | a code inside the interval of a whole symbol sequence is inside the interval before it: later symbols never disturb earlier ones |
| RangeSpec.CodesSeparateSymbols | internal/voip/media/mlow/rangecoder.go:384-399 | two symbols of one alphabet that both contain the same code overlap, so a code determines its symbol |
| RangeSpec.SymbolsTile | internal/voip/media/mlow/rangecoder.go:385-399 | the sub-intervals of neighbouring symbols meet, and the first and the last end where the whole interval does: no part of the range is lost or shared |
| RangeSpec.HeadPrefix | internal/voip/media/mlow/rangecoder.go:64-72 | strings that agree on the front bytes agree on every window the decoder sees of them |
| RangeSpec.UintParts | internal/voip/media/mlow/rangecoder.go:470-482 | the two parts of a uniform integer are a codable symbol and fitting raw fields for every range up to 2^32 |
| RangeEncoding.RangeEncoder.CarryOut | internal/voip/media/mlow/rangecoder.go:351-372 | emitted bytes, `rem` and the pending 0xFF run denote the digits so far; a carry turns the run over and never leaves the first byte |
| RangeEncoding.RangeEncoder.Normalize | internal/voip/media/mlow/rangecoder.go:374-382 | bytes and registers go on denoting the renormalised interval of arbitrary precision |
| RangeEncoding.RangeEncoder.Encode | internal/voip/media/mlow/rangecoder.go:385-399 | one symbol narrows the exact interval by that symbol and nothing else; a zero total is an error that writes nothing; errors stick |
| RangeEncoding.RangeEncoder.EncodeCDF | internal/voip/media/mlow/rangecoder.go:431-445 | encodes exactly the table's interval of the symbol, or reports an error when the table has no such symbol |
| RangeEncoding.RangeEncoder.BitsN | internal/voip/media/mlow/rangecoder.go:448-467 | appends one raw field to the back stream for every width up to 25 bits |
| RangeEncoding.RangeEncoder.EncodeUint | internal/voip/media/mlow/rangecoder.go:470-482 | writes the leading part as a symbol and the rest as a raw field |
| RangeEncoding.RangeEncoder.Done | internal/voip/media/mlow/rangecoder.go:498-535 | unless a symbol was refused, the error is zero exactly when the flushed code and the raw fields fit the buffer; then every string that starts with the front bytes lies inside the interval of everything encoded, and the back bytes hold every raw field |
| RangeEncoding.ShortestEnd | internal/voip/media/mlow/rangecoder.go:501-508 | the flush emits the fewest bits whose every continuation stays inside the interval, which fixes the length of the code |
| RangeEncoding.Continuations | internal/voip/media/mlow/rangecoder.go:500-512 | the code chosen at the end stays inside the interval whatever bytes follow it |
| RangeEncoding.CarriedValue | internal/voip/media/mlow/rangecoder.go:351-372 | adding the carry to `rem` and turning the 0xFF run to zeros adds exactly one unit to the number the bytes spell |
| RangeDecoding.RangeDecoder.constructor | internal/voip/media/mlow/rangecoder.go:50-62 | a fresh decoder stands at the first interval of any string whose promised symbols its code contains |
| RangeDecoding.RangeDecoder.Decode | internal/voip/media/mlow/rangecoder.go:97-112 | returns a frequency inside the promised symbol's interval; zero and oversized totals are the two error cases |
| RangeDecoding.RangeDecoder.Update | internal/voip/media/mlow/rangecoder.go:136-146 | steps to the same interval as the encoder and keeps the promise for the remaining symbols |
| RangeDecoding.RangeDecoder.DecodeCDF | internal/voip/media/mlow/rangecoder.go:197-221 | returns the promised symbol of any table, and on any bytes a symbol of non-zero width |
| RangeDecoding.RangeDecoder.BitsN | internal/voip/media/mlow/rangecoder.go:224-244 | returns the next promised raw field through the refilled window, for every width up to 25 bits |
| RangeDecoding.RangeDecoder.DecodeUint | internal/voip/media/mlow/rangecoder.go:247-267 | gives back the uniform integer that was encoded; on any bytes a value in range |
| RangeDecoding.RangeDecoder.Decode64FineSym | internal/voip/media/mlow/rangecoder.go:270-287 | the clamped shortcut is the same decoding step as the general one for 64 equal symbols |
| RangeDecoding.RenormAhead | internal/voip/media/mlow/rangecoder.go:83-93 | the decoder's interval, one byte ahead of the encoder's, stays one byte ahead through every renormalisation |
| RangeRoundTrip.RoundTrip | internal/voip/media/mlow/rangecoder.go:83-146 | for any symbols and raw fields in any order and any buffer size: the encoder ends without error exactly when both streams fit, and then the decoder gets a value in every symbol's range and every field back, and range and bit count agree after every step |
| RangeRoundTrip.FrontRoundTrip | internal/voip/media/mlow/rangecoder.go:64-72 | whatever is interleaved with them, symbols depend on the front bytes alone: they come back with any other bytes standing behind those |
| CdfTables.EntryShare | internal/voip/media/mlow/cc_tables.go:99-113 | entry k is its exact share of 32767 - n plus k, rounded down by less than k |
| CdfTables.TableShape | internal/voip/media/mlow/pitch_seed.go:149-170 | for every non-empty weight list with positive sum: starts at 0, rises strictly, ends in (32767 - n, 32767] |
| CdfTables.CelpDcmfToCmf | internal/voip/media/mlow/celp_enc.go:250-266 | weights and table share one 16-bit buffer; nothing overflows and the result is the one table of these weights |
| CdfTables.PitchDcmfToCmf | internal/voip/media/mlow/pitch_seed.go:149-170 | the 32-bit version builds the same table |
| CdfTables.LsfDcmfToCmf | internal/voip/media/mlow/lsf_seed.go:328-349 | the third version builds the same table |
| CdfTables.PdfToCmf | internal/voip/media/mlow/cc_tables.go:99-113 | non-negative weights with a positive sum give a table of the same shape |
| CdfTables.StrictWindow | internal/voip/media/mlow/cc_tables.go:479-487 | every window of two or more entries of a strict table is a strict table |
| LsfCodec.EncodeSmplLsf | internal/voip/media/mlow/encoder.go:311-355 | writes selector, grid, sixteen residuals and the extra symbol with the tables the prediction selects, and updates the prediction |
| LsfCodec.DecodeSmplLsf | internal/voip/media/mlow/lsf.go:93-155 | reads a well-formed index set from any bytes without error; an encoder's set comes back and the prediction follows the encoder's |
| WireLaws.LsfPlaces | internal/voip/media/mlow/lsf.go:104-150 | which of the four grid tables a frame uses, and where selector, residuals and extra symbol stand among its nineteen symbols |
| WireLaws.PredictionKept | internal/voip/media/mlow/lsf.go:57-72 | predictions survive exactly a frame that continues its predecessor's selector |
| PulseVector.VectorBuild | internal/voip/media/mlow/analysis.go:528-608 | for every 320-sample signed vector with at most 40 pulses in each 80-sample subframe, the run and sign symbols are well formed and determine the vector |
| PulseVector.UnpackPack | internal/voip/media/mlow/analysis.go:587-606 | a batch of up to any number of signs survives packing, most significant first |
| PulseVector.PlaceRuns | internal/voip/media/mlow/analysis.go:546-584 | placing a subframe's runs gives back the positions and magnitudes they were read from |
| PulseVector.BuildPulseParams | internal/voip/media/mlow/analysis.go:528-608 | the scanning loops compute exactly these symbols |
| PulseCodec.TriExact | internal/voip/media/mlow/pulse.go:61-65 | the count prior in wrapping 32-bit arithmetic, masked to 16 bits, equals a plain quadratic for every count |
| PulseCodec.CumGrows | internal/voip/media/mlow/pulse.go:61-86 | the prior rises strictly from zero over all 161 counts |
| PulseCodec.UniqueCount | internal/voip/media/mlow/pulse.go:70-86 | every frequency lies in exactly one count's interval, so the scan stops at a unique count |
| PulseCodec.DecodeCount | internal/voip/media/mlow/pulse.go:59-88 | the scan always finds a count, and it is the encoded one |
| PulseCodec.DecodeSplit | internal/voip/media/mlow/pulse.go:90-135 | four counts of at most forty that add up to the total, from any bytes; the encoder's split comes back |
| PulseCodec.DecodeRunBlock | internal/voip/media/mlow/pulse.go:137-174 | runs that stay inside their subframes, with the pulses they place; the encoder's runs come back |
| PulseCodec.DecodeSigns | internal/voip/media/mlow/pulse.go:178-200 | one sign for every placed pulse; the encoder's sign symbols come back |
| PulseCodec.EncodeSmplPulses | internal/voip/media/mlow/encoder.go:360-446 | re-derives the count interval and the split from the subframe counts and replays runs and signs |
| PulseCodec.DecodeSmplPulses | internal/voip/media/mlow/pulse.go:34-210 | from any bytes a well-formed block and its vector, without error; the encoder's block comes back |
| WireLaws.CountWidths | internal/voip/media/mlow/pulse.go:59-88 | a frame without pulses takes 321 parts of the count prior, one pulse 162, and every further pulse one part less |
| WireLaws.HalfPlace | internal/voip/media/mlow/pulse.go:90-108 | the first half's count stands at its own entry of the split table of the total, whatever the bounds rule out |
| WireLaws.SplitPlaces | internal/voip/media/mlow/pulse.go:90-135 | first the halves of the frame, then the subframes of the first half and of the second |
| WireLaws.PulseRunPlaces | internal/voip/media/mlow/pulse.go:137-174 | run i of a subframe is coded among the positions and pulses that the runs before it leave |
| WireLaws.RunsReach | internal/voip/media/mlow/analysis.go:546-584 | the runs of the first n samples add up to the place of their last pulse, one run for each pulse |
| WireLaws.PackBits | internal/voip/media/mlow/analysis.go:587-606 | bit i of a batch, counted from the top, is set exactly for a positive pulse |
| FixedPointLaws.Lin2logRises | internal/voip/media/mlow/cc_tables.go:43-55 | the logarithm never falls as its argument rises, across octaves too |
| FixedPointLaws.PowerFloor | internal/voip/media/mlow/cc_tables.go:57-74 | both forms of the power are one shape: the power of two times the bent fraction, rounded down once |
| FixedPointLaws.Log2linDoubles | internal/voip/media/mlow/cc_tables.go:57-74 | 128 steps up double the power, exactly from seven octaves on and to a unit below |
| FixedPointLaws.Log2linRises | internal/voip/media/mlow/cc_tables.go:57-74 | the power never falls as its argument rises, over every 32-bit argument |
| FixedPointLaws.Log2linInverts | internal/voip/media/mlow/cc_tables.go:43-74 | the logarithm of the power of q lies between q - 3 and q + 1 for every q from 896 to 3966 |
| FixedPointLaws.SigmStep | internal/voip/media/mlow/cc_tables.go:76-96 | from one step to the next the sigmoid never falls, except that it falls by exactly two at 159 and at -160 |
| FixedPointLaws.SigmRises | internal/voip/media/mlow/cc_tables.go:76-96 | over any distance it falls by at most those two units |
| FixedPointLaws.SigmMirrors | internal/voip/media/mlow/cc_tables.go:76-96 | it is odd about one half, to within a unit |
| FixedPointLaws.SqrtSquares | internal/voip/media/mlow/vad.go:69-82 | the square of the root is at most a five-hundredth above its argument, and of three more than it at least nineteen twentieths of it |
| LogCurve.LogRounds | internal/voip/media/mlow/cc_tables.go:43-55 | below 256 the logarithm is eight parabolas, one an octave, rounded down |
| LogCurve.AnySplit | internal/voip/media/mlow/cc_tables.go:132-140 | however k + m pulses are split in two non-empty parts, the approximated binomial stays below 2^(k+m) by more than all rounding |
| PulseModel.SplitLogNegative | internal/voip/media/mlow/cc_tables.go:132-140 | the logarithm of a split's chance is negative for every count and total, so the weight never divides by zero |
| PulseModel.EvenSplitLikely | internal/voip/media/mlow/cc_tables.go:132-140 | the even split keeps a positive weight for every total, so no split table is empty |
| PulseModel.SplitMirrors | internal/voip/media/mlow/cc_tables.go:132-140 | splitting off k pulses of n weighs what splitting off n - k does |
| PulseModel.StirlingStep | internal/voip/media/mlow/cc_tables.go:121-130 | one more in the approximated factorial adds its logarithm, up to the stated rounding |
| PulseModel.SplitRatio | internal/voip/media/mlow/cc_tables.go:132-140 | from k to k + 1 the logarithm of a split's weight moves by that of (n - k) / (k + 1), the ratio of the binomials, up to the stated rounding |
| PulseModel.SplitRises | internal/voip/media/mlow/cc_tables.go:132-140 | so the weights rise wherever that ratio is beyond the rounding |
| PulseModel.InverseHalves | internal/voip/media/mlow/cc_tables.go:138-139 | one bit more in the logarithm halves the weight, to within its rounding |
| PulseModel.BentLaw | internal/voip/media/mlow/cc_tables.go:190-193 | the bent chance has the scaled logarithm it was asked for, to within three steps |
| PulseModel.ScaleLaw | internal/voip/media/mlow/cc_tables.go:183-189 | more pulses or fewer positions never raise the scale by more than one |
| PulseModel.CreateSplitCmfs | internal/voip/media/mlow/cc_tables.go:142-158 | all 159 split tables are strict, one entry for every count that leaves neither half above eighty |
| PulseModel.RunMass | internal/voip/media/mlow/cc_tables.go:165-202 | the run-length weights and the chance of a longer run add up to one, less at most one unit a step |
| PulseModel.CreateRunlenTable | internal/voip/media/mlow/cc_tables.go:165-202 | for every length the forty run-length tables are strict and those of the weights, with every product inside its register |
| PulseModel.BuildPulseTables | internal/voip/media/mlow/cc_tables.go:386-389 | the split and run-length tables the code builds meet all that the pulse block and the whole frame assume of them |
| PulseModel.PulseRoundTrip | internal/voip/media/mlow/encoder.go:360-446 | vector to symbols to bits to vector with the built tables: any vector of at most forty pulses a subframe comes back exactly when its symbols fit the buffer |
| GainCodec.ResidualPlace | internal/voip/media/mlow/gains.go:44-63 | a gain whose nearest step of 2^14 lies o steps below zero, clamped to 0 and 85, reads entries o to o + 91 of the row of its pulses in tens |
| GainCodec.GainSteps | internal/voip/media/mlow/gains.go:30-40 | one step of the main gain moves every subframe by the same energy step, and a unit of its own table entry moves one by sixteen |
| GainCodec.SelectTable | internal/voip/media/mlow/gains.go:44-63 | the window returned starts at the gain's nearest step, said without the formula that finds it |
| GainCodec.ResidualTableOk | internal/voip/media/mlow/gains.go:43-63 | every window any gain can select, clamped at both ends, lies inside its row and is strict |
| GainCodec.EncodeSmplGains | internal/voip/media/mlow/encoder.go:469-509 | writes gains and one residual per subframe with pulses, each from the window its reconstructed gain selects |
| GainCodec.DecodeSmplGains | internal/voip/media/mlow/gains.go:18-65 | reconstructs the same gains, so selects the same windows, so reads the same residuals; never an error on any bytes |
| WireLaws.GainPlaces | internal/voip/media/mlow/gains.go:18-65 | two gain symbols, then one residual for each subframe with pulses, in order, each inside the window that its gain and its pulses in tens place |
| SmplMemory.DecodeBlockseg | internal/voip/media/mlow/pitch_seed.go:98-117 | one to six runs, blocks below nine, run lengths one to four, from any bit stream |
| SmplMemory.FirstCovering | internal/voip/media/mlow/mem.go:131-139 | a lookup finds the first region that covers the whole range |
| SmplMemory.ReadsElsewhere | internal/voip/media/mlow/mem.go:141-178 | a read that no region covers whole is zero at every width, and a signed read is the unsigned one modulo 2^32 |
| SmplMemory.BuildSmplMem | internal/voip/media/mlow/mem.go:54-113 | the builder's byte regions are the layout the reads below are proved against |
| SmplMemory.HeaderReads | internal/voip/media/mlow/mem.go:84-88 | the header words read back as the table addresses and the contour count |
| SmplMemory.RecordReads | internal/voip/media/mlow/mem.go:66-83 | the words of contour c read back as its blocks, run lengths and count |
| SmplMemory.LagReads | internal/voip/media/mlow/mem.go:92-92 | every window of the contour table reads back through the address space |
| SmplMemory.DeltaReads | internal/voip/media/mlow/mem.go:93-97 | every window of each of the three lag tables reads back |
| SmplMemory.TransitionReads | internal/voip/media/mlow/mem.go:98-102 | every row of the block transition table reads back |
| SmplMemory.ContourReads | internal/voip/media/mlow/mem.go:103-103 | every contour number reads back |
| SmplMemory.BoundReads | internal/voip/media/mlow/mem.go:105-110 | both bounds of every first block read back |
| PitchCodec.GainTablesReady | internal/voip/media/mlow/cc_tables.go:414-439 | whatever gain and filter came before, the tables they select lie in range and are strict |
| WireLaws.FilterSteps | internal/voip/media/mlow/cc_tables.go:436-439 | a filter is coded by its step from the last one: entry q of the table after filter p is the 33 - p + q-th, so with the last filter one on the whole table stands one entry on |
| WireLaws.PitchGainPlaces | internal/voip/media/mlow/pitch.go:52-76 | subframe i's gain is coded by the row of the gain before it, and behind it the filter, if the subframe has pulses, by its step from the last filter sent |
| WireLaws.LastFilter | internal/voip/media/mlow/pitch.go:62-76 | subframes without pulses send no filter and leave the last one as it was |
| WireLaws.ModeThresholds | internal/voip/media/mlow/pitch.go:160-169 | the lag table rises with the gains of the four subframes, and changes at the two thresholds |
| WireLaws.ContourShare | internal/voip/media/mlow/pitch.go:87-106 | within the range of its first block a contour keeps its own share of the whole table |
| WireLaws.LagStep | internal/voip/media/mlow/pitch.go:177-199 | a lag is coded by its step from the last one, whatever blocks the two fall in |
| WireLaws.FirstLag | internal/voip/media/mlow/pitch.go:126-157 | the first lag is sent in full exactly when there is no previous block or the first one is out of its reach |
| PitchCodec.DeltaRange | internal/voip/media/mlow/pitch.go:179-181 | the start of every lag window lies in [-127, 128], and both ends are reached |
| PitchCodec.DeltaReady | internal/voip/media/mlow/pitch.go:180-181 | every 65-entry window in that range lies inside its 320-entry row and is strict |
| PitchCodec.ContourFound | internal/voip/media/mlow/pitch.go:108-116 | contour numbers are distinct, so the search inverts the encoder's lookup |
| PitchCodec.EncodeLagsWire | internal/voip/media/mlow/pitch.go:284-333 | writes contour selector, the full first lag where one is due, and one window symbol per remaining run |
| PitchCodec.DecodeContour | internal/voip/media/mlow/pitch.go:87-106 | gives back the contour number from either form; a block with an empty range is a malformed interval |
| PitchCodec.DecodeRunLags | internal/voip/media/mlow/pitch.go:177-199 | whatever the bits, a run gets one lag inside its own block; the encoder's lag comes back through the address arithmetic |
| PitchCodec.DecodeLags | internal/voip/media/mlow/pitch.go:79-201 | contour and all eight lags come back; on any bytes the lags found fit their contour and the prediction stays well formed |
| PitchCodec.EncodeSmplPitch | internal/voip/media/mlow/encoder.go:513-564 | writes the whole block and leaves the prediction `PredAfterPitch` |
| PitchCodec.DecodeSmplPitch | internal/voip/media/mlow/pitch.go:33-202 | gains, filters, contour and lags come back, and the decoder's last block and lag mirror the encoder's |
| PitchCodec.PredKept | internal/voip/media/mlow/pitch.go:335-342 | the prediction left by a well-formed block is well formed: last block, and a lag inside it |
| WireLaws.PredictionLeft | internal/voip/media/mlow/pitch.go:335-342 | the prediction left is the last gain, the last filter sent, and block and lag of the last subframe of the expanded track |
| FrameCodec.FirstForgets | internal/voip/media/mlow/lsf.go:93-155 | what a packet's first frame means does not depend on the prediction left by earlier packets |
| FrameCodec.EncodeInternal | internal/voip/media/mlow/encoder.go:578-592 | three blocks in order, prediction threaded through them |
| WireLaws.InternalOrder | internal/voip/media/mlow/encoder.go:578-592 | an internal frame is its spectral block, its pulses, then pitch if it is voiced and gains if it is not |
| WireLaws.FrameOrder | internal/voip/media/mlow/encoder.go:576-592 | a body is its three internal frames in order, each predicted from what the ones before it left |
| FrameCodec.DecodeInternal | internal/voip/media/mlow/decoder.go:119-147 | reads any bytes without error; an encoder's internal frame comes back with the encoder's prediction |
| FrameCodec.EncodeSmplFrame | internal/voip/media/mlow/encoder.go:568-602 | succeeds exactly when the symbols' flushed code fits 513 bytes, and then returns the TOC byte and a body of just that length that codes exactly these parameters whatever is appended |
| FrameCodec.DecodeActiveFrame | internal/voip/media/mlow/decoder.go:105-147 | from any earlier state: no decoder error on any bytes, and a body that codes three internal frames gives back those three |
| FrameCodec.FrameRoundTrip | internal/voip/media/mlow/encoder.go:566-602 | every well-formed frame whose symbols fit the encoder's buffer decodes to the same parameters and pulse vectors, after any history and before any trailing bytes |
| BlockTracks.GenBlocktrack | internal/voip/media/mlow/pitch_seed.go:120-146 | the expanded track fills the frame; the mean is the mean of its entries and the deltas are its total movement |
| BlockTracks.MovementRun | internal/voip/media/mlow/pitch_seed.go:128-141 | nothing moves inside a run, so one step per change of run is all the movement there is |
| BlockTracks.MovementBetweenEnds | internal/voip/media/mlow/pitch_seed.go:134-141 | a track that only rises or only falls moves by the distance between its ends |
| Fft.SmallestFactor | internal/voip/media/mlow/fft.go:24-37 | the least divisor above one, for every n from two |
| Fft.SumByColumns | internal/voip/media/mlow/fft.go:61-75 | every index below p * m is q + j * p exactly once |
| Fft.ShortTwiddle | internal/voip/media/mlow/fft.go:66-72 | the twiddle of a shorter transform times the combining one is the twiddle of the whole |
| Fft.CombineBin | internal/voip/media/mlow/fft.go:66-75 | one output of the combination step is one bin of the whole transform |
| Fft.FftRec | internal/voip/media/mlow/fft.go:41-76 | writes the discrete Fourier transform of the strided inputs for every length and stride, and nothing else; terminates |
| Fft.Cfft | internal/voip/media/mlow/fft.go:80-83 | the transform of the whole input |
| Fft.InverseTransform | internal/voip/media/mlow/fft.go:78-83 | transforming with the opposite sign gives every input back times the length |
| FcbSearch.EnergyPush | internal/voip/media/mlow/celp_enc.go:657-670 | a pulse adds twice its correlation with the others and its own energy to the full double sum |
| FcbSearch.EnergyIsSquareSum | internal/voip/media/mlow/celp_enc.go:1276-1293 | the quadratic form is the energy of the filtered pulses, so it is never negative |
| FcbSearch.BuildPhiFlip | internal/voip/media/mlow/celp_enc.go:1286-1293 | the mirrored table holds the autocorrelation at every distance both ways, zero past the response |
| FcbSearch.NonZeroRange | internal/voip/media/mlow/celp_enc.go:473-484 | outside the range two responses do not overlap |
| FcbSearch.DenStep | internal/voip/media/mlow/celp_enc.go:657-670 | the increment the code adds is exactly the change of every candidate's energy, repeated positions included |
| FcbSearch.CommitPulse | internal/voip/media/mlow/celp_enc.go:651-670 | after every pulse, num[i] is the correlation and den[i] the full energy of the pulses with one more at i |
| FcbSearch.AddPulse | internal/voip/media/mlow/celp_enc.go:754-792 | the beam search's copy-and-add step keeps the same exact state and leaves the survivor alone |
| FcbSearch.MultSymtoepl2 | internal/voip/media/mlow/celp_enc.go:182-202 | the three window phases together are the product with the whole symmetric Toeplitz matrix |
| FcbSearch.SmplFcbSearch | internal/voip/media/mlow/celp_enc.go:610-707 | each later position is the first best one, the main rate keeps the count worth most after its price per pulse, the error-correction rate exactly the count its threshold settles on, and both rates' numbers are exactly those of the pulses kept; each pulse returned names its position and has the sign of the target there, so that together the pulses gather the target's magnitudes |
| FcbSearch.GathersAll | internal/voip/media/mlow/celp_enc.go:690-705 | pulses with the sign of the target add up, on the target, to the sum of its magnitudes at their positions |
| FcbSearch.FecRank | internal/voip/media/mlow/celp_enc.go:681-687 | of the counts the error-correction rate looks at, the first worth most to it: nothing for the shared first pulse, then what the pulses explain less the price of those after the first |
| FcbSearch.FecBound | internal/voip/media/mlow/celp_enc.go:642-687 | that rate passes its maximum by at most one pulse, and exactly when the search goes on past a maximum of at least one and the next count is worth more than every earlier one |
| FcbSearch.FecFirst | internal/voip/media/mlow/celp_enc.go:633-707 | when no later count is worth more than nothing, that rate keeps the first pulse exactly if it is worth the main rate's price, and none at a maximum of zero or without a second pulse |
| FcbRates.FecWithin | internal/voip/media/mlow/celp_enc.go:648-687 | at any prices, all targets keep within the maximum exactly when it is zero or at least the main rate's |
| FcbRates.TwoKeptOfOne | internal/voip/media/mlow/celp_enc.go:681-687 | a concrete target for which two pulses are kept where one is the maximum |
| FcbRates.FlatTarget | internal/voip/media/mlow/celp_enc.go:610-707 | running the search on a flat target returns one pulse more than the maximum, for every maximum from one to below the main rate's |
| FcbRates.SearchedUnique | internal/voip/media/mlow/celp_enc.go:630-673 | the target determines the positions: two outcomes of the search agree pulse by pulse |
| Lpc.StepDownUp | internal/voip/media/mlow/lpc.go:304-307 | stepping down undoes stepping up |
| Lpc.StepUpDown | internal/voip/media/mlow/lpc.go:231-240 | stepping up undoes stepping down |
| Lpc.StableExactly | internal/voip/media/mlow/lpc.go:288-331 | the test accepts the output of the step-up recursion exactly when every rc^2 <= 0.9995 |
| Lpc.StableFilters | internal/voip/media/mlow/lpc.go:288-331 | every accepted filter is the step-up of in-bound coefficients |
| Lpc.ReflectionsUnique | internal/voip/media/mlow/lpc.go:225-241 | and of no others |
| Lpc.StepUpFilter | internal/voip/media/mlow/lpc.go:231-240 | at every complex z, the stepped-up polynomial is the old one plus the coefficient times its mirror |
| Lpc.FilterGain | internal/voip/media/mlow/lpc.go:225-241 | at 1 and at -1 the polynomial is the product of 1 + rc[k], with alternating signs at -1 |
| Lpc.InsideCircle | internal/voip/media/mlow/lpc.go:225-241 | with every coefficient in bound the mirror is nowhere larger than the polynomial on and inside the unit circle, where the polynomial has no zero |
| Lpc.StableNoZeros | internal/voip/media/mlow/lpc.go:288-331 | a filter the test accepts has no zero on or inside the unit circle, so its inverse is stable |
| Lpc.ExpandedMoves | internal/voip/media/mlow/lpc.go:244-251 | bandwidth expansion evaluates the same polynomial at a point scaled by its factor |
| Lpc.ShrinkBounds | internal/voip/media/mlow/lpc.go:334-347 | after n rounds the point is scaled by at most 1 - n / 1000 and at least 1 - n (n + 1) / 2000 |
| Lpc.Rc2a | internal/voip/media/mlow/lpc.go:225-241 | the pairwise in-place loop computes the step-up recursion, and its values at 1 and -1 are the products of 1 + rc[k] and 1 + (-1)^(k+1) rc[k] |
| Lpc.LpcIsStable | internal/voip/media/mlow/lpc.go:288-331 | the two-buffer walk decides that predicate for any coefficients; what it accepts has no zero on or inside the unit circle |
| Lpc.LpcStabilize | internal/voip/media/mlow/lpc.go:334-347 | ends stable, without zeros on or inside the unit circle, after at most 1000 expansions, with the first expansion that is stable; a stable input is unchanged |
| Vad.AnaFiltBank1 | internal/voip/media/mlow/vad.go:188-206 | the split of any frame, states within 2^27 and no overflow |
| Vad.AnaFiltBank1Inplace | internal/voip/media/mlow/vad.go:210-228 | the in-place split computes the same bands although it overwrites its input |
| VadLaws.BranchesPass | internal/voip/media/mlow/vad.go:188-206 | either branch of the split is an all-pass: output and state move from the state and past the sample by the same fixed part of their distance |
| VadLaws.ConstantBands | internal/voip/media/mlow/vad.go:188-206 | a settled constant goes wholly to the low band, sample by sample |
| VadLaws.AlternatingIsHigh | internal/voip/media/mlow/vad.go:188-206 | a settled alternation goes wholly to the high band |
| Vad.FiltHP | internal/voip/media/mlow/vad.go:177-184 | the high-pass recurrence in place, state bounded |
| VadLaws.SteadyFrame | internal/voip/media/mlow/vad.go:264-290 | on settled filters a frame that repeats one value leaves nothing in the three upper bands, and nothing in the lowest once the high-pass has settled |
| VadLaws.HighestBand | internal/voip/media/mlow/vad.go:264-290 | on a settled split an alternating frame reaches the highest of the four bands alone |
| VadLaws.HighpassStep | internal/voip/media/mlow/vad.go:177-184 | each output of the high-pass is the scaled input's fall plus 53084 parts in 65536 of the output before, saturated |
| Vad.EnergySaturates | internal/voip/media/mlow/vad.go:299-312 | saturating at every step loses nothing but the excess of the whole sum |
| Vad.Moves | internal/voip/media/mlow/vad.go:254-254 | a smoothing step never passes its target, so inverse levels stay positive and inside 32 bits |
| Vad.NextNoise | internal/voip/media/mlow/vad.go:237-260 | 1 <= nl <= 0x00FFFFFF and invNl >= 1 are kept, and no divisor is zero |
| VadLaws.CoefFollows | internal/voip/media/mlow/vad.go:242-253 | quieter input is followed with the full coefficient, more than eight times louder input with an eighth of it, and input between in proportion to level over energy |
| VadLaws.NoiseFollows | internal/voip/media/mlow/vad.go:239-259 | the level's inverse moves towards that of the biased energy by the coefficient's part of the way, and the level is its inverse, capped |
| VadLaws.MinCoefFalls | internal/voip/media/mlow/vad.go:232-236 | the start-up floor of the smoothing falls with the frame count, from full to none at a thousand |
| Vad.SmplVadState.GetNoiseLevels | internal/voip/media/mlow/vad.go:231-261 | every band takes its step with the start-up smoothing floor |
| Vad.SmplVadState.GetSAQ8 | internal/voip/media/mlow/vad.go:264-349 | activity 0 to 255 as a function of the frame and the carried state, with the next state |
| VadLaws.RatioNear | internal/voip/media/mlow/vad.go:323-328 | in either range of the energy the ratio is 256 times energy over noise, to within a unit of each |
| VadLaws.SnrRises | internal/voip/media/mlow/vad.go:323-329 | within one range, more energy over the same noise has no smaller logarithm of the ratio |
| VadLaws.SnrOctaves | internal/voip/media/mlow/vad.go:323-329 | j octaves above the noise the logarithm is at least 128 j, and below that it is less |
| VadLaws.HalfActivity | internal/voip/media/mlow/vad.go:317-349 | activity passes one half when every band stands about half an octave above its noise |
| VadLaws.QuietActivity | internal/voip/media/mlow/vad.go:314-349 | with no band above its noise the activity is 4 of 255 |
| Vad.SmplVadState.ProcessPacket | internal/voip/media/mlow/vad.go:352-392 | three frames in order, the invariant kept over any run, a short packet ignored, the flag set exactly when some frame is active or in hangover |
| Vad.CodedExactly | internal/voip/media/mlow/vad.go:378-389 | over any history a frame counts as voice exactly when one of it and the three before it was active, or it is one of the first three |
| FixedPoint.SigmQ15 | internal/voip/media/mlow/vad.go:85-102 | stays within 0 to 32767 for every argument |
| Rtp.HeaderRoundTrip | internal/voip/media/rtp.go:49-124 | a header survives encoding, whatever follows it, exactly when it is well formed: version 2, fields in range, a CSRC count that is its list's length and an extension of whole words |
| Rtp.Encode | internal/voip/media/rtp.go:49-78 | writes the bytes of any header at the front of the buffer and nothing else, or reports a short buffer and writes nothing |
| PacketLaws.RtpLayout | internal/voip/media/rtp.go:49-66 | the fixed header bit by bit and its fields as big-endian numbers |
| PacketLaws.RtpTail | internal/voip/media/rtp.go:67-78 | sources, then profile, length in words and data of the extension |
| Rtp.RtpSession.CreatePacketWithDuration | internal/voip/media/rtp.go:182-190 | numbers packets consecutively, both counters wrapping at their width |
| Srtp.StepExactly | internal/voip/media/srtp.go:124-140 | a receiver at index i derives the true index j exactly when j is in the same epoch and not 32768 behind, or in the next and less than 32768 ahead |
| Srtp.RunExactly | internal/voip/media/srtp.go:124-140 | over any run of deliveries, in any order, all indices are right exactly when the first precedes the first wrap and every step follows |
| Srtp.InOrder | internal/voip/media/srtp.go:124-140 | in-order delivery with gaps under 32768 is always derived right |
| Srtp.ReorderedAtWrap | internal/voip/media/srtp.go:124-136 | a packet overtaken at a wrap makes the receiver count the wrap twice |
| Srtp.NeverRecovers | internal/voip/media/srtp.go:124-136 | and it stays one epoch ahead over every run that follows |
| Srtp.IVInjective | internal/voip/media/srtp.go:142-159 | source and index can be read back from the initialisation vector |
| PacketLaws.VectorNumber | internal/voip/media/srtp.go:142-159 | the vector as a number is salt times 2^16, xor source times 2^64, xor index times 2^16 |
| Srtp.VectorsDiffer | internal/voip/media/srtp.go:142-159 | no two packets of one sender share a vector before the rollover counter wraps |
| Srtp.SrtpContext.GenerateIV | internal/voip/media/srtp.go:142-159 | the byte loops compute the salt mixed with source and index |
| Srtp.SrtpContext.Protect | internal/voip/media/srtp.go:72-95 | header in clear, payload under the keystream of its index, tag behind |
| Srtp.SrtpContext.Unprotect | internal/voip/media/srtp.go:97-122 | the error cases, and otherwise the payload under the keystream of the derived index |
| Srtp.Exchange | internal/voip/media/srtp.go:72-122 | when both sides end at the same index, header and payload come back whole |
| Srtp.Stream | internal/voip/media/srtp.go:72-122 | over a whole stream with losses but no gap of 32768, every packet that arrives is opened whole |
| Stun.MessageRoundTrip | internal/voip/transport/stun.go:44-101 | every attribute list that fits comes back in order, followed by integrity and fingerprint |
| PacketLaws.StunLayout | internal/voip/transport/stun.go:60-101 | type, length of what follows, cookie and identifier as numbers at their places, for any attributes |
| PacketLaws.AttributeLayout | internal/voip/transport/stun.go:44-54 | kind, length of the value, the value, then zeros to a multiple of four |
| Stun.FingerprintCovers | internal/voip/transport/stun.go:78-92 | the checksum input is the final message without its last eight bytes |
| Stun.IntegrityCovers | internal/voip/transport/stun.go:63-76 | the keyed digest covers the header with its own attribute counted, and the attributes before it |
| Stun.ParseStunResponse | internal/voip/transport/stun.go:210-315 | the loop reads, for any bytes and within bounds, exactly the attributes of the recursive reading |
| Red.DepackExactly | internal/voip/media/mlow/red.go:31-83 | a packet yields frames exactly when they pack to it: no byte lost, shared or left over |
| PacketLaws.RedLayout | internal/voip/media/mlow/red.go:31-83 | two header bytes for each older frame, one for the main one, then all data in the same order, each frame's at the sum of the sizes before it |
| Red.DepackSplitRed | internal/voip/media/mlow/red.go:31-83 | the two loops terminate in bounds on every byte string and compute that result, each error included |
| Nlsf.Move | internal/voip/media/mlow/synth.go:138-150 | every step conserves the sum of the margins |
| Nlsf.Repair | internal/voip/media/mlow/synth.go:135-159 | pass p leaves the margin it raised exactly p - 1 small steps above zero, only a thousand passes give up, and a single negative margin whose neighbours can pay ends at exactly zero in one pass |
| Nlsf.StabilizeNLSF | internal/voip/media/mlow/synth.go:116-167 | settles exactly when every gap, both ends included, is at least its minimum; an input already spaced is unchanged; a single short gap with room beside it is opened to exactly its minimum by moving its two frequencies evenly and no other |
| Nlsf.SpacedRises | internal/voip/media/mlow/synth.go:161-166 | spaced frequencies with positive spacings rise strictly between zero and pi |
| Nlsf.SpacedFits | internal/voip/media/mlow/synth.go:116-123 | only spacings that fit below pi can be met |
| PitchEnergy.WindowDown | internal/voip/media/mlow/pitch_enc.go:216-220 | moving a window one sample down adds one square and drops another |
| PitchEnergy.EnergyOfConstant | internal/voip/media/mlow/pitch_enc.go:142-148 | a constant window has one square times its length |
| PitchEnergy.CalcE1Inner | internal/voip/media/mlow/pitch_enc.go:212-221 | each entry lies between the true window energy and that plus 1e-9, however long the recursion |
| PitchEnergy.CalcE1 | internal/voip/media/mlow/pitch_enc.go:224-238 | every subframe and lag gets the energy of the window that lies the lag before the subframe |
| Filters.FiltAR1 | internal/voip/media/mlow/postfilter.go:142-170 | the five-wide form equals the one-sample recurrence for every length, in place or not |
| Filters.FiltAR2 | internal/voip/media/mlow/postfilter.go:101-139 | the four-wide form with its impulse responses equals the second-order recurrence for every length |
| Filters.Ar1Equation | internal/voip/media/mlow/postfilter.go:142-170 | each output less the fed-back one before it is the input |
| Filters.FourSteps | internal/voip/media/mlow/postfilter.go:106-126 | the unrolled coefficients are the impulse response and its tails |
| Filters.PitchHpFilter | internal/voip/media/mlow/pitch_enc.go:54-83 | each output less 0.96 of the one before it is the input less the one before it, from rest |
| Filters.FirImpulse | internal/voip/media/mlow/postfilter.go:71-96 | one unit sample comes out as the three taps, in order, from its place on |
| Filters.Arma2Equation | internal/voip/media/mlow/postfilter.go:198-209 | the difference equation of the biquad with its signs, the first two outputs reaching into the history, and the state left behind |
| Filters.Arma2Pieces | internal/voip/media/mlow/postfilter.go:198-209 | filtering piece by piece with carried state equals filtering the whole, state included |
| Filters.FiltArma2 | internal/voip/media/mlow/postfilter.go:198-209 | three-tap numerator, then two-tap denominator, with both histories carried |

## Left out
- FrameCodec.DecodeActiveFrame: frames whose TOC byte selects config 1 are outside the statement, because the encoder only writes the config 0 pulse count form; gains, filters and the spectral block are modelled for both configs.
- FrameCodec.EncodeSmplFrame: the `HasPitch` flag only feeds a log line and is not a field here; the TOC byte is passed through.
- PulseCodec.DecodeSmplPulses: the parse-error exits for a first half outside its bounds and for a -1 half count cannot be reached with config 0 counts and are not written out.
- PitchCodec.DecodeSmplPitch: the outputs `IntLagQ6`, `SampleLagQ6`, `NumSeg` and `NumSubfr` are not modelled; the frame decoder reads none of them.
- RangeRoundTrip.RoundTrip: `nbitsTotal` and the pending-run counter are unbounded here, where the source keeps 32 bits; buffers are below 2^32 bytes.
- RangeEncoding.RangeEncoder.Encode: bit-probability and inverse-CDF symbols (`BitLogp`, `EncodeICDF`, `DecodeICDF`) are not modelled; the frame code never uses them. Symbols have a positive width and a total of at most 2^23: an empty interval makes the source's renormalisation loop run for ever, and above 2^23 the total may exceed the current range, which does the same.
- RangeEncoding.RangeEncoder.EncodeCDF: tables that fall somewhere are outside the statement, because their symbols have negative widths in wrapping 32-bit arithmetic; every table the codec uses is proved or assumed strict.
- RangeDecoding.RangeDecoder.DecodeCDF: rising tables only, for the same reason.
- SmplMemory.BuildSmplMem: it takes the expanded tables; reading and inflating the seed files is not part of this model, and the unused global addresses are dropped.
- Fft.FftRec: sines and cosines are a parameter that obeys the laws of roots of unity; single-precision angles and sums are not modelled.
- Fft.InverseTransform: the packed real layout of the forward and backward real transforms is not modelled.
- FcbSearch.AddPulse: only the branch without pitch sharpening, and not the ranking of candidates that follows it.
- FcbSearch.SmplFcbSearch: over exact reals, with the response a parameter.
- Lpc.LpcIsStable: the exits for a zero divisor and for reaching the end on an even step cannot be reached with order 16 and are not written out.
- Vad.SmplVadState.GetSAQ8: frames of 320 samples only, the one length the encoder passes.
- Vad.SmplVadState.ProcessPacket: frames of 320 samples only, likewise; results are in units of 1/256 instead of floats, and the discarded tilt is computed but not returned.
- Srtp.SrtpContext.Protect: AES, HMAC and key derivation are arbitrary functions of the right output length; nothing is claimed about secrecy or authenticity.
- Rtp.Encode: a CSRC list longer than its count may write past the size that was checked, where the source panics or cuts the extension off; such headers are outside the statement.
- Stun.ParseStunResponse: attribute names, method and class names, the error code fields and the routing identifier are not modelled; CRC-32 and HMAC-SHA1 are arbitrary functions, the latter of 20 bytes.
- Nlsf.StabilizeNLSF: over exact reals; that every feasible input settles within the loop limit is not claimed, only that one short gap with room beside it does.
- Bitwise or on disjoint bits is written as a sum, shifts as multiplication and floor division, and exclusive or bit by bit.
- Slices shared between packets, frames and buffers are values here, so aliasing of returned frames with their packet is not modelled.
- Floating-point rounding, bit-exactness with the reference and perceptual quality.
- Synthesis, noise generation, the perceptual model, the bitrate controller, pitch scoring and the voicing classifier: float heuristics without a crisp specification.
- The call state machine, HTTP, storage, WebRTC and user interface code.
