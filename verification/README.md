# CI-V receive decoder and VFO tuning, modelled in Dafny

This project models two parts of a remote-control head for Icom radios.

The first part is `check_CIV` in `CIV.cpp`. It takes one answer the radio sent over the CI-V bus:
the command octets, the data octets, and the numeric value the CI-V library already computed from
them. It does four things:

- finds the command in the positional signature table `cmd_List`;
- decodes the BCD data fields;
- commits the result to the band memory, the mode table and the `radio_*` globals;
- returns a message-type code between 0 and 14.

The second part is `selectFrequency` in `Tuner.cpp`. It moves the active VFO by a number of tuning
steps, clamps the result at the 1 MHz floor, and stores it in `VFOA` or in `sub_VFO`, depending on
the split/transmit state. It then computes the frequency handed to the synthesiser, which includes
the RIT/XIT, transverter and Fc offsets.

Modules:

- `Base`: octets, `Option`, 2^64.
- `Bcd`: the BCD codec, with its encoders and round trips.
- `Commands`: the signature table and the first-match scan.
- `Modes`: the mode table and its first-match lookup.
- `BandMemory`: band records and the per-command updates to them.
- `Fields`: the RIT/XIT offset, the UTC offset and the clock fields.
- `Duplex`: the duplex offset.
- `Civ`: the global state, the dispatch switch and `check_CIV` itself.
- `Tuner`: `selectFrequency`.

The model builds in these configuration facts:

- Command ids are the row positions of `cmd_List`. `End_of_Cmd_List` is 56, the number of rows.
- `CIV_ADDR` is the IC-705 address, so a band-stack frequency has five octets (`F_len` = 5).
- `UTC` is 1, so the local-time correction in the position branch is dead code.
- `PANADAPTER` and `SV1AFN_BPF` are not defined.

Integers are unbounded in Dafny. Wherever the C++ truncates or wraps, the model writes it out:

- a `uint8_t` store is `% 256`;
- a `uint64_t` addition is `% 2^64`.

## Model

| member | source | states |
|---|---|---|
| Commands.CmdList | CIV.cpp:37-103 | the 56 rows of `cmd_List`, row for row, each with its command id and body octets; the table carries no contract of its own, and `Commands.TableIsPositional` states its ordering |
| Commands.TableIsPositional | CIV.cpp:37-103 | `cmd_List` lists its 56 rows in enumeration order: the row at position `i` carries the command whose enumeration value is `i` |
| Commands.FirstMatch | CIV.cpp:159-178 | the first row whose length octet and every body octet equal the received command; no earlier row matches; 56 if none does |
| Commands.FindCommand | CIV.cpp:159-178 | the nested compare loops stop at a matching row with no matching row before it, or run off the end of the table |
| Commands.FindCommandAgrees | CIV.cpp:159-178 | any index with the loop's exit property is exactly the first match |
| Commands.MatchesBody | CIV.cpp:159-176 | a row matches if and only if the length octet equals its body length and the next octets equal its body |
| Commands.Recognise | CIV.cpp:180-186 | no command is recognised if and only if no row before the last one matches; otherwise the recognised id is that of the first matching row, which lies before the last one |
| Commands.LastRowRejected | CIV.cpp:180-186 | `RADIO_ON` (18 01) matches the last row, yet the `>= End_of_Cmd_List-1` test rejects it |
| Commands.DuplicateNeverWins | CIV.cpp:159-178 | a row whose body repeats an earlier row's body is never the first match |
| Commands.PreampOnShadowed | CIV.cpp:71-72 | `PREAMP_ON` (row 31) repeats `PREAMP_OFF` and is never selected |
| Commands.RfPowShadowed | CIV.cpp:68-85 | `RF_POW` (row 41) repeats `RFPOWER` and is never selected |
| Commands.FirstRowWithBody | CIV.cpp:159-178 | a command equal to a row's body, with no earlier row carrying that body, selects that row |
| Commands.AttnOnExample | CIV.cpp:159-186 | 11 10 is recognised as `ATTN_ON` |
| Commands.PreampOnExample | CIV.cpp:71-72 | 16 02 00 is recognised as `PREAMP_OFF` |
| Bcd.BcdByte | CIV.cpp:269-270 | at most 165; for decimal nibbles it is at most 99 |
| Bcd.BcdDigits | CIV.cpp:269-270 | for decimal nibbles the decoded value's tens are the high nibble and its units the low nibble |
| Bcd.ToBcd | CIV.cpp:269-270 | the reference encoder puts tens in the high nibble and units in the low nibble |
| Bcd.BcdOfToBcd | CIV.cpp:269-270 | decoding inverts encoding on 0..99 |
| Bcd.ToBcdOfBcd | CIV.cpp:269-270 | encoding inverts decoding on octets with two decimal nibbles |
| Bcd.DecodeLeBcd | CIV.cpp:264-271 | a little-endian field of k decimal octets lies below 100^k |
| Bcd.DecodeBound | CIV.cpp:264-271 | even with nibbles above 9, a k-octet field stays below 2·100^k |
| Bcd.DecodeEncode | CIV.cpp:264-271 | every value below 100^k survives encoding into k octets and decoding back |
| Bcd.EncodeDecode | CIV.cpp:264-271 | every field of decimal octets survives decoding and re-encoding |
| Bcd.DecodeSnoc | CIV.cpp:268-271 | appending an octet adds its two digits at the next power of 100 |
| Bcd.DecodeFrequency | CIV.cpp:264-271 | the running-multiplier loop (units, then tens) computes the little-endian BCD value |
| Bcd.GetByteResponse | CIV.cpp:650-657 | 0 when fewer than offset+3 octets arrived; otherwise hundreds and remainder summed, modulo 256 |
| Bcd.GetByteResponseRoundTrip | CIV.cpp:650-657 | any value 0..255 written as a hundreds octet and a two-digit octet reads back unchanged |
| Modes.ResolveFrom | CIV.cpp:280-287 | the least index from k whose entry fits the key; none only when no entry from k fits |
| Modes.Resolve | CIV.cpp:341-348 | the least fitting index; none if and only if no entry fits |
| Modes.IndexOrRaw | CIV.cpp:280-287 | when an entry fits, the first fitting index, with no fitting entry before it; otherwise the raw mode code is kept |
| Modes.SetWidth | CIV.cpp:335-350 | only the chosen entry's width changes; its mode and data flag, and every other entry, stay |
| Modes.WidthKeepsResolution | CIV.cpp:335-348 | writing a width never changes which entry a (mode, data) lookup picks |
| Modes.DecimalAsHex | CIV.cpp:210-218 | a single decimal digit reads the same in hexadecimal |
| Modes.DecimalAsHexIsBcd | CIV.cpp:210-218 | reading a number 0..99 as hexadecimal gives its BCD octet, which decodes back to the number |
| BandMemory.BandFromCode | CIV.cpp:291-300 | codes 1..6 name the band with that code; any other code names the 2 m band |
| BandMemory.BandFromCodeInverse | CIV.cpp:291-300 | each band with a stack code is recovered from that code |
| BandMemory.StoreBandStack | CIV.cpp:303-323 | register 1 writes slot 1 and `data_A`; registers 2 and 3 write their slot and `data_A_2`; any other register changes nothing; no write touches another slot |
| BandMemory.ApplyPreamp | CIV.cpp:448-461 | a non-zero status sets the preamp on and the attenuator off; zero clears only the preamp; the two are never both on |
| BandMemory.ApplyAttn | CIV.cpp:491-502 | a non-zero status sets the attenuator on and the preamp off; zero clears only the attenuator; the two are never both on |
| BandMemory.ApplyAgc | CIV.cpp:516-520 | 1, 2 and 3 select fast, mid and slow; any other value leaves the record unchanged |
| BandMemory.AgcStatus | CIV.cpp:74-77 | the status octet of a named AGC speed is 1, 2 or 3 and decodes back to that speed |
| BandMemory.AgcRoundTrip | CIV.cpp:516-520 | reporting a named speed's octet stores exactly that speed; a stored speed reports back the octet that set it |
| BandMemory.ApplySplit | CIV.cpp:469-483 | split is 1 exactly when the status is non-zero and 0 exactly when it is zero; nothing else changes |
| Fields.RitOffset | CIV.cpp:568-571 | a signed 16-bit offset, negative only when the sign octet is non-zero, with magnitude at most 9999 for decimal digits, and zero exactly when both digit octets are zero |
| Fields.RitRoundTrip | CIV.cpp:568-571 | every offset in -9999..9999 survives encoding into digits and sign and decoding back |
| Fields.RitDecodeEncode | CIV.cpp:568-571 | decimal digits with a 0/1 sign survive decoding and re-encoding (a minus sign on zero excepted) |
| Fields.UtcOffset | CIV.cpp:424-433 | the direction is the third field; a non-zero direction negates both hours and minutes, so they never have opposite signs |
| Fields.EncodeUtc | CIV.cpp:424-433 | the reference encoder writes hours and minutes as BCD octets and the direction as 0 or 1 |
| Fields.UtcRoundTrip | CIV.cpp:424-433 | every offset of at most 99 h 99 min, hours and minutes of one sign, survives encoding and decoding, and the direction is non-zero exactly for a negative offset |
| Fields.UtcDecodeEncode | CIV.cpp:424-433 | decimal hour and minute octets with a 0/1 direction survive decoding and re-encoding (a minus direction on zero excepted) |
| Fields.DecodeClock | CIV.cpp:392-398 | each of hour, minute, second, day, month and year is the BCD value of its octet (23..28) and re-encodes to that octet |
| Duplex.DuplexOffset | CIV.cpp:547-550 | as written: octet 1 digits weigh 1 and 10 kHz, octet 2 digits 10 and 100 kHz, octet 3 digits 1 and 10 MHz |
| Duplex.DuplexOffsetRange | CIV.cpp:547-550 | as written, the offset is a multiple of 1 kHz, fits a signed 32-bit value, and is at most 100 089 000 Hz for decimal digits |
| Duplex.DuplexDigitsOverlap | CIV.cpp:531-550 | as written, the tens digit of octet 1 and the units digit of octet 2 weigh the same, so two different fields decode to the same offset |
| Duplex.DuplexLowDigitTenfold | CIV.cpp:531-550 | as written, a lone 100 Hz digit is read as ten times its value |
| Duplex.DuplexOffsetHz | CIV.cpp:531-550 | corrected: the six digits weigh 100 Hz up to 10 MHz, the layout the source's comment gives; the result is a multiple of 100 Hz below 100 MHz |
| Duplex.DuplexRoundTrip | CIV.cpp:531-550 | every multiple of 100 Hz below 100 MHz survives encoding into three BCD octets and the corrected decoder |
| Duplex.DuplexDecodeEncode | CIV.cpp:531-550 | every field of decimal octets survives the corrected decoder and re-encoding |
| Civ.ModeReport | CIV.cpp:208-231 | returns 2; the filter is the value's last two decimal digits; the mode becomes the first table entry whose code matches, or stays the raw number |
| Civ.StackFrequency | CIV.cpp:251-271 | the frequency read from octets 3..7 is below 10^10 for decimal digits and always below 2^64; its value is pinned by `Civ.StackFrequencyRoundTrip` |
| Civ.StackFrequencyRoundTrip | CIV.cpp:251-271 | the band-stack frequency is the little-endian BCD value of octets 3..7: any frequency below 10^10 Hz encoded there reads back unchanged, and decimal octets there re-encode to themselves |
| Civ.BandStackReport | CIV.cpp:235-327 | returns 3; the addressed band's register slot gets the frequency, resolved mode and filter; slot 1 is kept unless the register is 1; other bands are untouched; an unknown register stores nothing; the width goes to the new mode (register 1) or to the band's `mode_A` (registers 2 and 3), and no other mode entry changes; mode codes and data flags in the table never change; every global but band memory, mode table, `radio_mode`, `radio_filter` and `radio_data` is kept |
| Civ.ExtendedModeReport | CIV.cpp:329-355 | returns 4; data flag and filter go to the current band; `mode_A` changes only when the (mode, data) pair is in the table; the filter becomes the width of both the band's previous `mode_A` entry and the reported mode's entry, and no other mode entry changes; mode codes and data flags in the table never change; every global but band memory, mode table, `radio_mode`, `radio_data` and `radio_filter` is kept |
| Civ.TxReport | CIV.cpp:358-377 | returns 5 if and only if the state differs from the last one, and 0 otherwise; the last state is updated; only 1 and 0 set and clear the transmit flag |
| Civ.TxRepeatSilent | CIV.cpp:358-377 | the same transmit answer given twice returns 0 the second time and changes nothing |
| Civ.TxReportsEdges | CIV.cpp:358-377 | of two successive transmit answers, the second returns 5 exactly when its octet differs from the first's |
| Civ.BandFlagReport | CIV.cpp:444-526 | only the current band's record changes, and it becomes the preamp, attenuator, AGC or split update of the reported octet; preamp answers return 8, attenuator 9, AGC 10, split 0; preamp/attenuator exclusivity is preserved |
| Civ.FieldReport | CIV.cpp:380-598 | band and mode tables are untouched; the position, UTC, duplex, RIT/XIT, RIT and XIT answers return 6, 7, 11, 12, 13 and 14 |
| Civ.TimeReport | CIV.cpp:381-442 | a position answer sets only the clock, to the decoded fields; a UTC answer sets only `hr_off`, `min_off` and `shift_dir`, to the decoded offset |
| Civ.OffsetReport | CIV.cpp:528-576 | a duplex answer sets only `radio_DUP`, to the as-written duplex decode; a RIT/XIT answer sets only `radio_RIT`, to the signed offset |
| Civ.SwitchReport | CIV.cpp:578-596 | a RIT or XIT on-off answer sets only its own on-off variable, to the decoded octet truncated to 8 bits |
| Civ.Dispatch | CIV.cpp:195-599 | returns a code in 0..14; keeps the current band and the mode-table size; `freqReceived` is set exactly by a frequency answer, which stores the value modulo 2^64 in `radio_VFO` and changes nothing else; preamp/attenuator exclusivity is preserved |
| Civ.FrequencyAnswer | CIV.cpp:195-206 | a recognised frequency answer stores the value modulo 2^64 in `radio_VFO`, sets `freqReceived` and returns 1 |
| Civ.PreampAnswer | CIV.cpp:444-467 | a recognised preamp answer returns 8; a non-zero octet turns the current band's preamp on and attenuator off, zero turns only the preamp off |
| Civ.AttnAnswer | CIV.cpp:487-509 | a recognised attenuator answer returns 9; a non-zero octet turns the attenuator on and preamp off, zero turns only the attenuator off |
| Civ.AgcAnswer | CIV.cpp:510-526 | a recognised AGC answer returns 10; octets 1, 2 and 3 store fast, mid and slow in the current band; any other octet leaves band memory unchanged |
| Civ.CheckCiv | CIV.cpp:140-186 | `freqReceived` holds afterwards if and only if the code is 1; an answer that is not `CIV_OK_DAV`, or that is not recognised, returns 0 and changes nothing but `freqReceived` |
| Civ.CheckCivMsgType | CIV.cpp:195-599 | the code returned for each recognised command equals a reference table of the switch's cases; an unchanged transmit state returns 0 |
| Civ.PreampOnAnswerIgnored | CIV.cpp:140-199 | a 16 02 00 answer is recognised as `PREAMP_OFF`, which has no case, so it returns 0 and changes nothing |
| Civ.GainAnswerLeavesOneStage | CIV.cpp:444-509 | after a preamp or attenuator answer, the current band never has both stages on |
| Civ.SplitAnswerReturnsZero | CIV.cpp:469-485 | a split answer returns 0 and stores 1 for a non-zero value and 0 for zero |
| Tuner.BaseFrequency | Tuner.cpp:38-44 | when split-transmitting, `sub_VFO` as is; otherwise the largest multiple of the step not above `VFOA` |
| Tuner.ClampBottom | Tuner.cpp:53-54 | never below 1 MHz; anything at or below becomes exactly 1 MHz; anything above is kept |
| Tuner.HardwareFrequency | Tuner.cpp:72-77 | congruent modulo 2^64 to stored frequency + (XIT if transmitting else RIT) − transverter LO + Fc, and equal to it when nothing wraps |
| Tuner.SelectFrequency | Tuner.cpp:36-77 | the clamped, wrapped move is stored in `sub_VFO` when split-transmitting, else in both `VFOA` and `vfo_A_last`; nothing else changes; the stored value is at least 1 MHz |
| Tuner.StoredIsClampedMove | Tuner.cpp:41-54 | without wrap-around, the stored frequency is the floor for a target at or below 1 MHz and the target otherwise |
| Tuner.OffsetsNotStored | Tuner.cpp:63-77 | RIT, XIT, transverter and Fc offsets never reach the stored state |
| Tuner.ZeroStepKeepsVfo | Tuner.cpp:36-69 | re-tuning by zero steps from a step multiple above 1 MHz stores `VFOA` again |
| Tuner.TuneBelowZeroWraps | Tuner.cpp:44-54 | as written, 101 steps of 10 kHz down from 1 MHz store 2^64 − 10 000 Hz in `VFOA` |
| Tuner.FloorTarget | Tuner.cpp:53-54 | corrected: any signed target at or below 1 MHz becomes the floor; a target in range is kept; the result always lies in [1 MHz, 2^64) |
| Tuner.SelectFrequencyFloored | Tuner.cpp:36-77 | corrected: the floor applies to the signed target, so a move below zero stops at 1 MHz; routing and offsets as in the source |
| Tuner.FlooredAgreesWithoutWrap | Tuner.cpp:41-54 | where the source does not wrap, the corrected version computes exactly what it computes |
| Tuner.FlooredMonotone | Tuner.cpp:44-54 | in the corrected version, fewer steps never store a higher frequency |

## Left out

- Bus transport: `civ.readMsg`, `writeMsg`, `civ_905_setup`, `pass_GPS`, `pass_CAT_*` and `show_CIV_log` are serial I/O in a foreign library. The library's result (`retVal`, `cmd`, `datafield`, `value`) is an input to `Civ.CheckCiv`.
- `bcdByte` comes from the CI-V library, which is not part of this model. It is modelled as high nibble × 10 + low nibble, the same decode the band-stack loop writes inline.
- Display, debug printing and `AGC(3)` are UI side effects and are not modelled.
- `setTime` is a TimeLib call. The position branch records the decoded clock fields in the state instead. The local-time call is dead code because `UTC` is 1.
- Modes.DecimalAsHex: `hexToDec(String(radio_mode))` is an Arduino String helper that is not part of this model. It is assumed to read the decimal digits of its argument as a hexadecimal number.
- The `if (0)` poll block after the switch is dead code.
- `SetFreq`, `displayFreq`, and the `PANADAPTER` and `SV1AFN_BPF` blocks of `selectFrequency` are hardware or compiled-out paths. `Tuner.SelectFrequency` returns the value that would go to `SetFreq`.
- `RadioConfig.h` and `CIV.h` hold build switches, pin maps and prototypes, and contribute only the constants named above. The Python UDP client is unrelated to the core.
- Civ.Valid: a mode table of 256 entries or more is excluded, because the `uint8_t` lookup counters (CIV.cpp:216, 280, 341) never reach its end and the lookup loops would not terminate.
- Civ.InBounds: the source indexes `modeList` and `datafield` without bounds checks. An unresolved mode code used as a table index is undefined behaviour. `Civ.Dispatch` therefore requires every such access to be in range, and does not model the out-of-bounds memory effects.
- BandMemory.StoreBandStack: register 1 writes `data_A`; registers 2 and 3 write `data_A_2` (CIV.cpp:309, 315, 321). The band-memory struct is not part of this model.
- BandMemory.ApplyAgc: the AGC enum is modelled as three named values. Preamp and attenuator are modelled as booleans rather than their enum constants.
- Civ.CheckCiv: `CIVresultL.value` is modelled as an unbounded natural number. The frequency branch stores it modulo 2^64.
- Tuner.SelectFrequency: requires the step product `newFreq * fstep` and the offset difference `offset - xvtr_offset` to fit in 64 bits, because their overflow in the source is undefined behaviour. Through `Tuner.ArgsWf` it also requires a step of at least 1, because `VFOA % fstep` (Tuner.cpp:44) divides by zero when `fstep` is 0.
- Commands.CmdList: takes enum ids to equal row positions and `End_of_Cmd_List` to be 56; `Commands.TableIsPositional` states the first. The header declaring the enumeration is not part of this model.

## Findings

| source | as written | input that shows it | evidently intended | confidence | as-written member | corrected member |
|---|---|---|---|---|---|---|
| CIV.cpp:547-550 | the duplex offset is `(bcd(d3)·1000 + bcd(d2)·10 + bcd(d1))·1000`, which weighs octet 1's digits at 1 kHz and 10 kHz | the data `10 00 00` and `00 01 00` both decode to 10 000 Hz; `01 00 00` decodes to 1000 Hz | the layout in the comment at CIV.cpp:531-532: octet 1 holds 1 kHz/100 Hz, octet 2 100 kHz/10 kHz, octet 3 10 MHz/1 MHz, giving `100·bcd(d1) + 10 000·bcd(d2) + 1 000 000·bcd(d3)` | medium, not executed | Duplex.DuplexDigitsOverlap | Duplex.DuplexDecodeEncode |
| Tuner.cpp:44-54 | the step product is added onto the unsigned `Freq` before the 1 MHz floor test, so a move below zero wraps to a huge frequency that passes the test | `VFOA` = 1 000 000, step 10 000, `newFreq` = −101: `VFOA` becomes 2^64 − 10 000 | a move at or below 1 MHz, including one below zero, stops at `bottomFreq` | medium, not executed | Tuner.TuneBelowZeroWraps | Tuner.SelectFrequencyFloored |

`Civ.Dispatch` stores what the source stores, the as-written `Duplex.DuplexOffset`. `Duplex.DuplexOffsetHz` is the corrected reference decoder; it is proved against its encoder but is not wired into the state. `Duplex.DuplexRoundTrip` and `Duplex.DuplexLowDigitTenfold` give the other directions of the first finding. `Tuner.FlooredAgreesWithoutWrap` and `Tuner.FlooredMonotone` state the corrected tuner's properties.
