# maykb split-keyboard link logic, modelled in Dafny

This project models the logic of the maykb firmware
(`Software/keyberon/src/main.rs`) that joins the two halves of the split
keyboard, and the footprint-position extractor of the CAD scripts
(`CAD/scripts/extract_footprint_positions.py`).

- `common.dfy` (module `Common`): the `u8` byte type, `Option`, `Result`,
  and two generic sequence folds (`Scan`, `FlatMap`) with their append laws.
- `events.dfy` (module `Events`): the key `Event` (`Press(row, col)` /
  `Release(row, col)`) and `Transform`, which maps the coordinates and keeps
  the tag.
- `link.dfy` (module `Link`): the 4-byte frame `'P'|'R', row, col, '\n'`.
  It has `Ser` and `De`, the 4-byte sliding receive buffer of `read_packet`
  (`ReadPacket`), and `Feed`, which runs a whole byte stream through
  `read_packet`.
- `board.dfy` (module `Board`): `BoardType` (`Side`), `COLS_PER_BOARD`, and
  `translate`.
- `bits.dfy` (module `Bits`): binary digits and the division facts behind a
  right shift.
- `firmware.dfy` (module `Firmware`): `handle_event` (`HandleEvent`) and the
  LED bit loop (`ShiftLeds`). It also has `tick` as a trace of serial writes
  and task spawns (`Tick`, with the reference trace `Broadcast`).
- `footprints.dfy` (module `Footprints`): the extractor's line-by-line state
  machine.

The layout engine is opaque. `LayoutOps` gives its `tick`, `event`,
`current_layer` and report collection as function parameters. A UART read is
an `Option<u8>` argument: `None` means the read failed. A `tick` trace starts
from the list of events the debouncer produced in that scan.

The serial protocol has no escaping, and the model makes the consequence
explicit. `Link.SelfHeal` shows that every frame's terminator delivers that
frame's event, whatever the buffer held before. `Link.StreamDecodes` shows
that back-to-back frames decode to exactly their events when no row byte is
`'\n'`. `Link.RowTerminatorMisframes` shows that this condition is needed: a
row byte of `'\n'` after a frame whose column byte is `'P'` completes a
spurious extra event. Local rows are below 5, so the firmware never sends
such a frame (`Firmware.LinkDelivers`).

## Model

| member | source | states |
|---|---|---|
| Link.Ser | Software/keyberon/src/main.rs:340-345 | The frame is 4 bytes: 'P' exactly for a press ('R' otherwise), then row and column unchanged, then '\n' |
| Link.De | Software/keyberon/src/main.rs:333-339 | Fails exactly when the slice is not 4 bytes, or does not start with 'P'/'R', or does not end in '\n' |
| Link.SerDeRoundTrip | Software/keyberon/src/main.rs:333-345 | Decoding a serialised event gives back that event |
| Link.DeInvertsSer | Software/keyberon/src/main.rs:333-345 | Every slice that decodes is exactly the serialisation of the decoded event |
| Link.SerInjective | Software/keyberon/src/main.rs:340-345 | Distinct events have distinct frames |
| Link.ReadPacket | Software/keyberon/src/main.rs:347-365 | A failed read changes nothing and yields nothing. A read byte b turns buffer [b0,b1,b2,b3] into [b1,b2,b3,b]. An event comes out exactly when b is '\n' and the new buffer decodes, and it is the decoded event |
| Link.FeedWindow | Software/keyberon/src/main.rs:347-351 | After any stream the buffer holds the last four bytes received, topped up from the old buffer while fewer have arrived |
| Link.FeedEventsBounded | Software/keyberon/src/main.rs:352-360 | A stream yields at most one event per '\n' byte |
| Link.SelfHeal | Software/keyberon/src/main.rs:347-365 | From any buffer, the fourth byte of a frame yields that frame's event and leaves the frame in the buffer. The tag byte never yields an event. The row or column byte yields none unless it is '\n' |
| Link.OneFrame | Software/keyberon/src/main.rs:347-365 | A frame whose row is not '\n', arriving on a buffer whose last byte is not a tag, yields exactly its event |
| Link.StreamDecodes | Software/keyberon/src/main.rs:347-365 | Back-to-back frames decode to exactly their events, in order. This holds from the zero buffer or after any frame, when no row byte is '\n' |
| Link.RowTerminatorMisframes | Software/keyberon/src/main.rs:347-365 | Without the row condition a stream of two frames can decode to three events |
| Events.Transform | Software/keyberon/src/main.rs:370 | Keeps Press/Release and replaces (row, col) with the closure's image |
| Board.Translate | Software/keyberon/src/main.rs:367-373 | Left side: the event is unchanged. Right side: the tag and row are kept and the column becomes 9 + col whenever that fits in a u8 |
| Board.HalvesDisjoint | Software/keyberon/src/main.rs:367-373 | Local keys of the left half land in columns 0..9 and those of the right half in 9..18 |
| Board.TranslateInjective | Software/keyberon/src/main.rs:367-373 | Two local keys, on either half, never share a unified coordinate |
| Board.RightHalfExample | Software/keyberon/src/main.rs:367-373 | Right-half local (2,3) becomes (2,12) |
| Firmware.ShiftLeds | Software/keyberon/src/main.rs:269-278 | LED k is driven low exactly when bit k of the layer number is set |
| Firmware.HandleEvent | Software/keyberon/src/main.rs:259-292 | Some(e): e is applied to the layout and LEDs and report are untouched. None: the layout ticks, LED k goes low iff bit k of the current layer is set, and the report collected from the new layout is offered |
| Firmware.ProcessEvents | Software/keyberon/src/main.rs:261-267 | A run of event messages applies the events in order and leaves LEDs and report alone |
| Firmware.WriteFrame | Software/keyberon/src/main.rs:310-313 | Writing one frame sends exactly its bytes to each link, right before left for every byte |
| Firmware.Tick | Software/keyberon/src/main.rs:300-317 | Both links receive exactly the frames of the translated events, in scan order, right before left per byte. The spawns are the translated events in order, then one None |
| Firmware.BroadcastProjections | Software/keyberon/src/main.rs:304-315 | The broadcast trace carries exactly the events' frames on each link and one spawn per event, in order |
| Firmware.BroadcastPaired | Software/keyberon/src/main.rs:310-313 | Every byte written to the right link is written to the left link next |
| Firmware.SpawnAfterFrames | Software/keyberon/src/main.rs:304-315 | The k-th event is spawned right after the frames of the first k events have been written, and before any byte of a later event |
| Firmware.TickCycle | Software/keyberon/src/main.rs:260-316 | Running a scan's spawns applies every translated event in order and then ticks. Only then are the LEDs set from the layer bits and the report offered |
| Firmware.LinkDelivers | Software/keyberon/src/main.rs:245-257 | Fed to the peer's receive buffer, one scan's bytes decode to exactly the scan's translated events, in order, and the peer's layout applies them in that order |
| Footprints.SelectFrom | CAD/scripts/extract_footprint_positions.py:10-18 | The result is the category of the first keyword found in the line. There is none exactly when no keyword occurs |
| Footprints.SelectFirstMatch | CAD/scripts/extract_footprint_positions.py:11-18 | The keywords are tried in the order Cherry, MountingHole, TRRS, USB_C_Receptacle |
| Footprints.SplitJoin | CAD/scripts/extract_footprint_positions.py:21 | Splitting on spaces loses nothing: the pieces join back to the line and contain no space |
| Footprints.Record | CAD/scripts/extract_footprint_positions.py:24-31 | A pair is appended to exactly the list of its category; the other three are unchanged |
| Footprints.Step | CAD/scripts/extract_footprint_positions.py:10-32 | A recognised footprint line activates its category, and an unrecognised one changes nothing. A position line with an active category files parts[1], parts[2] and deactivates the category. Such a line fails when it has fewer than three pieces. Other lines change nothing |
| Footprints.ListsOnlyGrow | CAD/scripts/extract_footprint_positions.py:9-32 | Each list only ever has pairs appended, so it keeps the input order of its position lines |
| Footprints.OnePerFootprint | CAD/scripts/extract_footprint_positions.py:10-32 | Filed pairs plus a pending category never outnumber the recognised footprint lines |
| Footprints.ExtractBounded | CAD/scripts/extract_footprint_positions.py:4-32 | The four lists together hold at most one pair per recognised footprint line |
| Footprints.UnrecognisedFootprintKeepsCategory | CAD/scripts/extract_footprint_positions.py:10-20 | A position after an unrecognised footprint is filed under the last recognised footprint's category |

## Left out

- Board.Translate: the right half's `9 + col` is a `u8` addition. The model wraps it modulo 256, as a build without overflow checks does; a build with overflow checks would panic for col > 246. Local columns are below 9, so neither case arises.
- Firmware.HandleEvent: the report is modelled as the value handed to `set_keyboard_report`. Whether the USB class accepts it, the `Configured` state check and the `while let Ok(0)` write loop are USB transport calls and a busy-wait, so they are not modelled.
- Peripheral bring-up in `init` (clocks, GPIO modes, USART and USB setup) is hardware configuration.
- The first-scan bootloader check, `reboot_bootloader` and `reboot` are a volatile register write and a system reset.
- RTIC scheduling, priorities, spawn queue capacity and `lock` are concurrency. `tick` and `handle_event` are modelled as sequential traces.
- The keyberon `Debouncer`, `Matrix`, `Layout` (hold-tap engine) and `KbHidReport` live in a library whose source is not part of this model. The debouncer's output is an input list, and the layout is the opaque `LayoutOps`.
- `usb_poll`, `usb_tx` and `usb_rx` are USB stack calls.
- `block!` on UART writes and the `ResultExt::get` unwrap: every write is modelled as one atomic, successful action.
- The `LAYERS` table and `FN_KEY` are static configuration data.
- `uart_right_rx` and `uart_left_rx` only spawn `handle_event(Some(e))` for each event `read_packet` returns. `Firmware.LinkDelivers` covers them through `Link.Feed` and `Firmware.Process`.
- In the extractor, `float()` parsing, and the `ValueError` it raises on a bad token, are floating point, so coordinates stay raw tokens. `fileinput` input and the `print` output are I/O.
