# via-send-raw, modelled in Dafny

`viasendraw` is a small command-line tool for VIA/QMK keyboards. It selects a
raw-HID endpoint by vendor id, product id, usage page and usage id, all given
as hexadecimal strings. It sends one 32-byte frame, made of the VIA custom
command marker `0xFF` followed by up to 31 bytes from standard input, and
retries for up to five seconds until the keyboard echoes the frame back
behind the success byte `0x01`.

This project models the tool's protocol core and proves its contracts:

- `types.dfy` (module `Types`): byte and 16-bit newtypes, `Option`, `Result`,
  and a run of fill bytes.
- `hex.dfy` (module `HexParse`): `parse_hex_string`. This covers Rust's
  repeated-prefix `trim_start_matches` and `u16::from_str_radix` in base 16,
  including the single leading `+` that Rust accepts. It proves the parse
  result for digit strings and for the `0x` and `0X` prefixes. It proves
  failure for an empty remainder or a lone sign, for a character that is
  not a hex digit, and for a value above 0xFFFF. It also proves a round
  trip through a four-digit hex rendering.
- `args.dfy` (module `Args`): `parse_args_or_exit`. It parses the four
  selectors in order, the first failure aborts, and the defaults are
  `0xFF60` and `0x61`.
- `locator.dfy` (module `Locator`): `find_target_device`, a first-match
  search, and the open policy of `open_device_or_exit`. The policy opens by
  path first, falls back to vendor/product, and returns "not found" before
  any open. The open calls are parameters, and the model records the
  calls that were made.
- `frame.dfy` (module `Frame`): the `len > 31` input guard, and the frame
  built in place in a zeroed 32-byte array, with its layout.
- `classifier.dfy` (module `Classifier`): `process_response` as a verdict
  (no reply, wrong status byte, wrong payload, accepted) and as the boolean
  the source returns.
- `retry.dfy` (module `Retry`): `send_data_with_retry`, an imperative loop
  over a scripted transport and an abstract millisecond clock. It is proved
  against a recursive specification `Run`. Lemmas about `Run` state the
  source's promises:
  - attempts are numbered one by one;
  - a write error skips the read and the pause;
  - a read error is a reply of no bytes;
  - the loop pauses only before the deadline, with the capped backoff;
  - success comes exactly when some reply was accepted;
  - a failure returns only after the deadline.
- `tool.dfy` (module `Tool`): `main` as one method that chains the steps
  above and maps each fatal error to exit status 1.

Timing is abstract. The script gives, for attempt `k`, the result of the
write and how long it took, and the result of the read and how long it
took. The clock advances by these durations and by the pauses. Every
write takes at least one millisecond (`Retry.Progressing`), and that is
why the loop terminates.

Two consequences of the code's order of steps:

- A failing run can return well after the five seconds. The loop tests the
  deadline before each attempt and again before each pause. So the last
  attempt may run its write and read past the deadline. Or its read may end
  just before the deadline, and then the loop still pauses for up to 800 ms.
  The overrun is always less than the larger of those two amounts
  (`Retry.FailureOverrun`). One concrete device returns at 5799 ms, which is
  more than one 200 ms read timeout late (`Retry.LateDeviceOverrun`).
- Standard input is read and checked after the device is opened
  (src/main.rs:63-65). Input that is too long is therefore reported only
  once a device was found and opened.

## Model

| member | source | states |
|---|---|---|
| HexParse.TrimStartMatches | src/utils.rs:7 | what is left after the trim never starts with the pattern again, so every leading copy is removed |
| HexParse.TrimmedPartIsRepeats | src/utils.rs:7 | the input is exactly some number of copies of the pattern followed by the trimmed rest, so only leading copies are removed |
| HexParse.Cleaned | src/utils.rs:7 | the text handed to the number parser never starts with "0X", and a selector with neither prefix is handed over unchanged |
| HexParse.FromStrRadix16 | src/utils.rs:8 | the empty string and a lone "+" are refused; a string of hex digits is accepted exactly when its value fits in 16 bits, and then gives that value; anything accepted starts with a digit or a plus sign |
| HexParse.ParseHexString | src/utils.rs:6-9 | an error always carries the original, uncleaned input |
| HexParse.DigitsParse | src/utils.rs:8 | a string of hex digits parses if and only if it is non-empty and its base-16 value is at most 0xFFFF, and the result is that value |
| HexParse.PrefixIrrelevant | src/utils.rs:7 | a leading "0x" never changes the result, and a leading "0X" changes nothing unless "0x" follows it |
| HexParse.PrefixedDigitsParse | src/utils.rs:7-8 | a bare, "0x"-prefixed or "0X"-prefixed in-range digit string all give the digits' value |
| HexParse.OnlyPrefixesFail | src/utils.rs:7-8 | any number of "0x" copies and nothing else trims to the empty string, which is an error |
| HexParse.NonHexFails | src/utils.rs:8 | a non-hex character after cleaning (other than one leading '+') makes the parse fail |
| HexParse.EmptyRemainderFails | src/utils.rs:7-8 | a selector that leaves nothing, or only a plus sign, once the prefixes are removed fails with its own text ("0x", "0X", "0x0X", "+", "0x+") |
| HexParse.TooLargeFails | src/utils.rs:8 | digits worth more than 0xFFFF fail with and without either prefix |
| HexParse.HexRoundTrip | src/utils.rs:6-9 | every 16-bit value, written as four hex digits, bare or behind "0x" or "0X", parses back to itself |
| HexParse.Hex4Value | src/utils.rs:8 | the four-digit rendering of a value has that value in base 16 |
| HexParse.BareDigitsSample | src/utils.rs:8 | "1f" gives 31 |
| HexParse.PrefixedSamples | src/utils.rs:7-8 | "0x1f", "0X1f" and "0x0x1f" give 31 |
| HexParse.TrimOrderSample | src/utils.rs:7 | "0X0x1f" fails because the "0X" trim runs after the "0x" trim |
| HexParse.EmptyRemainderSample | src/utils.rs:8 | "0x" fails because nothing is left to parse |
| HexParse.PlusSignSample | src/utils.rs:8 | "+1f" gives 31, since one leading plus sign is accepted |
| Args.ParseArgs | src/main.rs:30-52 | succeeds if and only if all four strings parse, and returns them in vendor, product, usage page, usage id order; on an error, the first failing field is named with its cause and every earlier field parsed |
| Args.DefaultUsagePageParses | src/main.rs:22 | the default usage page "0xFF60" parses to 0xFF60 |
| Args.DefaultUsageIdParses | src/main.rs:26 | the default usage id "0x61" parses to 0x61 |
| Args.DefaultsSelectRawHid | src/main.rs:21-27 | with the defaults left in place, parsing succeeds exactly when vendor and product parse, and selects usage page 0xFF60 and usage 0x61 |
| Locator.FindTargetDevice | src/utils.rs:30-43 | none exactly when no descriptor matches all four ids; otherwise a matching descriptor with no matching descriptor before it |
| Locator.NonMatchingPrefixIgnored | src/utils.rs:37-42 | descriptors that do not match, placed in front, do not change the search result |
| Locator.FirstMatchWins | src/utils.rs:37-42 | a matching descriptor that only non-matching ones precede is the one found, whatever is enumerated after it |
| Locator.OpenDevice | src/utils.rs:45-77 | not found exactly when no open is attempted; the path open of the found descriptor always comes first; the vendor/product open happens only if that fails; the result is the first successful open, and it is an error carrying the fallback's cause when both fail |
| Frame.CheckInputLength | src/utils.rs:87-95 | input of up to 31 bytes passes through unchanged, and longer input is refused with its length |
| Frame.FrameOf | src/main.rs:67-68 | the frame is 32 bytes long and starts with the 0xFF marker |
| Frame.FrameLayout | src/main.rs:67-69 | the frame is 32 bytes: the 0xFF marker, then the input, then zeros |
| Frame.BuildFrame | src/main.rs:67-69 | the frame built in a zeroed 32-byte array has the marker at index 0, the input at 1..1+len and zeros after it, and is that frame |
| Frame.SentPayload | src/utils.rs:152 | the payload is the frame without its first byte: one byte shorter, and the marker put back in front gives the frame |
| Frame.SentPayloadOfFrame | src/utils.rs:152 | the payload the echo is checked against is all 31 bytes after the marker: the input followed by its zero padding |
| Classifier.Classify | src/utils.rs:98-141 | no reply exactly when no byte was read; a wrong status exactly when the first byte is not 0x01, and that byte is reported; accepted exactly when the bytes read are 0x01 followed by the sent payload |
| Classifier.ProcessResponse | src/utils.rs:98-141 | true exactly when the bytes read are 0x01 followed by the sent payload, so an accepted reply is one byte longer than the payload |
| Classifier.EchoAccepted | src/utils.rs:111-140 | a reply of 0x01 followed by the payload is accepted whatever trails it in the buffer |
| Classifier.OtherPayloadRejected | src/utils.rs:122-127 | a reply that echoes any other payload is rejected |
| Retry.Backoff | src/utils.rs:184 | the pause after a rejected attempt is between 50 and 800 ms |
| Retry.BackoffSchedule | src/utils.rs:184 | the pauses after attempts 1 to 6 are 50, 100, 200, 400, 800 and 800 ms |
| Retry.BackoffBounds | src/utils.rs:184 | every pause is between 50 and 800 ms; it doubles up to attempt 5 and stays at 800 ms from then on |
| Retry.BytesRead | src/utils.rs:174-177 | at most the 32-byte buffer is read, and a read error counts as zero bytes |
| Retry.NextAttempt | src/utils.rs:155-186 | the next attempt takes the next number, starts at the current clock, and ends as the script and process_response decide, pausing for its backoff only if its read ended before the deadline |
| Retry.RunFrom | src/utils.rs:154-194 | going on from the attempts made so far never drops below their number; it makes at least one more attempt while the clock is before the deadline; it fails only at or after the deadline |
| Retry.Run | src/utils.rs:149-194 | the whole loop, from a clock at zero, makes at least one attempt and fails only at or after the deadline |
| Retry.RunWellFormed | src/utils.rs:151-194 | attempts are numbered 1, 2, 3, ...; each begins before the deadline, the first at time zero and each later one when the previous one ended; success holds exactly when some attempt was confirmed, and that attempt is the last; failure is returned only after the deadline |
| Retry.WriteErrorSkipsReadAndPause | src/utils.rs:157-166 | after a failed write the next attempt begins as soon as the write returns, with no read and no pause |
| Retry.ReadErrorIsNoReply | src/utils.rs:174-177 | a read error gives a rejected attempt with zero bytes read |
| Retry.PauseOnlyBeforeDeadline | src/utils.rs:183-186 | after a rejection the loop pauses exactly when the deadline has not passed, for that attempt's backoff, and the next attempt begins after the pause |
| Retry.VerdictIsProcessResponse | src/utils.rs:173-181 | an attempt whose write succeeded is confirmed exactly when process_response accepts the reply read into the zeroed buffer |
| Retry.FailureOverrun | src/utils.rs:154-194 | a failing run returns at or after the deadline, and overruns it by less than the larger of the last attempt's write and read time and the 800 ms pause cap |
| Retry.LateDeviceOverrun | src/utils.rs:154-194 | a device that refuses four writes and then answers nothing after a 4795 ms write fails after five attempts at 5799 ms, 799 ms past the deadline |
| Retry.NoEchoFails | src/utils.rs:154-194 | a device that never echoes makes the loop fail once the deadline has passed |
| Retry.EchoVerdicts | src/utils.rs:98-141 | a full echo is accepted and an empty read is not |
| Retry.EchoOnFirstAttempt | src/utils.rs:154-181 | a device that echoes at once gives success after one attempt, 2 ms in |
| Retry.EchoOnThirdAttempt | src/utils.rs:154-186 | a device silent twice gives two rejected attempts with pauses of 50 and 100 ms, then success on attempt 3 |
| Retry.ReadTimeout | src/utils.rs:173-177 | filling the zeroed 32-byte buffer returns the bytes read (zero on an error) and leaves the reply followed by zeros in the buffer |
| Retry.SendDataWithRetry | src/utils.rs:143-195 | the loop's success flag, attempts and elapsed time are those of the specification Run on the payload after the marker; success holds exactly when some attempt was confirmed; failure comes only after the deadline |
| Tool.ExitStatus | src/main.rs:71-73 | the exit status is 0 or 1, and it is 0 exactly when the run succeeded |
| Tool.AcceptedEchoIsWholeFrame | src/main.rs:67-71 | an accepted reply to a built frame is 32 bytes: 0x01, the input, then zeros |
| Tool.ViaSendRaw | src/main.rs:54-74 | a bad argument stops before any open; the open calls are those of the open policy; a locate failure stops before the transfer; the transfer runs exactly when the input fits, on the frame's payload; the run succeeds, with exit status 0, exactly when the transfer did |

## Left out

- The hidapi calls are not modelled. Enumeration becomes a sequence of
  descriptors, and `open_path` and `open` become function parameters.
  `write` and `read_timeout` become a script indexed by attempt number,
  because they are foreign transport calls.
- `HidApi::new` failing (src/main.rs:58-61) is not modelled: it depends
  only on the host's HID stack.
- The device handle is an opaque value.
- `list_available_devices` and all console output are not modelled. This
  includes the hex dump and the "As text" display in `process_response`,
  which uses lossy UTF-8 decoding and Unicode trimming. None of it affects
  a returned value.
- Reading standard input (`read_to_end`) and its error are not modelled;
  the input bytes are a parameter. Only the 31-byte guard is kept.
- clap's argument parsing is not modelled; the four strings are given. Its
  default mechanism is represented by the two default constants.
- `process::exit` is not modelled as a call. Each fatal path returns an
  error value instead, and `Tool.ExitStatus` maps that value to 1.
- Real time is not modelled. `Instant`, `Duration` and `thread::sleep`
  become an abstract millisecond clock. A pause advances it by exactly the
  backoff, with no oversleeping. The time the deadline checks themselves
  take is not counted.
- Retry.SendDataWithRetry: every write is assumed to take at least 1 ms
  (`Retry.Progressing`). The source makes no such promise. Any attempt
  whose write takes 0 ms is outside the model, even when its read then
  takes time.
- The number of bytes `write` reports is not modelled: the source only
  prints it.
- Retry.SendDataWithRetry: the model does not produce the source's final
  "failed after N attempts" message, because it is console output. The
  attempt count is still the length of the returned attempt list.
