# DHT extension of a Firmata client, modelled in Dafny

The modelled code is `pymatacoreext.py`. It extends an asynchronous Firmata client with two sysex commands for DHT temperature/humidity sensors:

- `DHT_CONFIG` (0x66) configures a sensor.
- `DHT_DATA` (0x67) requests a reading and tags the reply.

The model covers:

- **`ExtConstants`** (`ext_constants.dfy`): the two command codes and the sensor-type values. DHT21 and AM2301 share the value 21.
- **The NUL filter of `dht_get_data`** (`reply_filter.dfy`): a reply is a sequence of Unicode code points. `RemoveZeros` is the recursive specification. `FilterReply` is the source's character loop, proved against it. The lemmas say what the filter means:
  - it distributes over concatenation and so keeps order;
  - it keeps every non-zero code point as often as it occurs;
  - it shortens the reply by exactly the number of zeros;
  - it leaves a reply unchanged exactly when the reply has no zero;
  - it yields the empty string exactly for all-zero replies;
  - it is idempotent.
- **`ExtPyMataCore`** (`pymatacoreext.dfy`): a class with two fields.
  - `queryReplyData` is the base client's reply table: a map from command code to stored reply.
  - `sent` is a ghost log of the commands handed to the transport.

  `DhtConfig` and `DhtGetData` update that state. `DhtGetData` is proved against the specification function `GetDataSpec`. The lemmas beside it compare two consecutive calls. `DhtData` (the inbound handler) and `ExtendedCommandDictionary` are pure functions.

The two-second polling wait of `dht_get_data` is abstracted into a `WaitOutcome` that the caller supplies:

- `Arrived(reply)`: another part of the client filled the slot with a non-empty reply while the caller waited.
- `TimedOut`: the deadline passed first.

The model follows the code where it differs from the system's design description:

- The reply slot is keyed by the command code 0x67, not by pin.
- The reply is a string of characters, not a parsed temperature/humidity pair.
- The configure payload is `[dht_type, dht_pin]`, type first.
- `dht_get_data` never checks that the pin was configured.
- `dht_get_data` does not clear the slot after reading it. A second call after a non-empty reply sends nothing and returns the same reply again (`GetDataRepeatReplays`). It does not time out.
- `_dht_data` strips the frame markers but stores nothing, despite its doc comment. It is modelled as a function returning the stripped payload, so it cannot touch the reply table.

## Model

| member | source | states |
|---|---|---|
| `ExtConstants.TypeAliasesShareWireValue` | pymatacoreext.py:9-17 | DHT21 and AM2301 have the same wire value 21; the configure and data codes differ |
| `ReplyFilter.RemoveZeros` | pymatacoreext.py:45-49 | the filtered reply has no zero code point and is never longer than the stored reply |
| `ReplyFilter.RemoveZerosAppend` | pymatacoreext.py:45-49 | filtering a concatenation is the concatenation of the filtered parts (character-wise, order kept) |
| `ReplyFilter.RemoveZerosCons` | pymatacoreext.py:45-49 | a non-zero first character stays first, a zero one is dropped, the rest is filtered the same way |
| `ReplyFilter.RemoveZerosMultiset` | pymatacoreext.py:45-49 | the filtered reply holds every non-zero code point exactly as often as the stored one, and no zero |
| `ReplyFilter.RemoveZerosLength` | pymatacoreext.py:45-49 | the filtered reply is shorter by exactly the number of zero code points |
| `ReplyFilter.RemoveZerosUnchanged` | pymatacoreext.py:45-49 | a reply comes back unchanged if and only if it contains no zero |
| `ReplyFilter.RemoveZerosEmpty` | pymatacoreext.py:45-49 | the filtered reply is empty if and only if every stored character is zero |
| `ReplyFilter.RemoveZerosIdempotent` | pymatacoreext.py:45-50 | filtering the written-back reply again changes nothing |
| `ReplyFilter.FilterReply` | pymatacoreext.py:45-49 | the character loop returns exactly the stored reply with its zero code points removed |
| `PyMataCoreExt.ConfigAliasesIndistinguishable` | pymatacoreext.py:25-28 | configuring as DHT21 or AM2301 sends the same command, payload type first then pin |
| `PyMataCoreExt.GetDataSpec` | pymatacoreext.py:38-51 | a request `[pin]` is sent iff the slot is empty on entry; `None` iff a request was sent and the wait timed out, table then untouched; otherwise the slot holds exactly the filtered reply (stored or arrived), which is returned and has no NUL; no other slot changes |
| `PyMataCoreExt.GetDataRepeatReplays` | pymatacoreext.py:38-51 | after a call returned a non-empty reply, the next call sends nothing, keeps the table and returns the same reply |
| `PyMataCoreExt.GetDataAllZeroReplyRearms` | pymatacoreext.py:38-50 | an all-NUL stored reply comes back as the empty string and the next call sends a fresh request |
| `PyMataCoreExt.ExtPyMataCore.SendSysex` | pymatacoreext.py:39 | sending appends exactly the one command (code, payload) to the log |
| `PyMataCoreExt.ExtPyMataCore.DhtConfig` | pymatacoreext.py:25-28 | exactly one command is sent, code 0x66 with payload `[dht_type, dht_pin]`; the reply table is untouched |
| `PyMataCoreExt.ExtPyMataCore.DhtGetData` | pymatacoreext.py:30-51 | the new table, the commands sent and the return value are those of `GetDataSpec`; a returned reply equals the slot and has no NUL; nothing is sent when the slot was non-empty |
| `PyMataCoreExt.ExtPyMataCore.DhtData` | pymatacoreext.py:53-62 | a frame of length n ≥ 2 yields its n−2 inner elements 1..n−2 in order; a shorter frame yields the empty payload; the reply table is not touched |
| `PyMataCoreExt.DhtDataStripsFraming` | pymatacoreext.py:60-61 | stripping a framed body returns the body, whatever the marker bytes |
| `PyMataCoreExt.ExtPyMataCore.ExtendedCommandDictionary` | pymatacoreext.py:64-65 | the dispatch table has exactly one key, 0x67, mapped to the DHT data handler |

## Left out

- The polling loop of `dht_get_data` (`asyncio.sleep`, `time.time()` and the two-second deadline) is not modelled. It is wall-clock and cooperative-scheduling behaviour, replaced by the `WaitOutcome` the caller supplies. `WaitWellFormed` only demands that an arrived reply is non-empty, which is what ends the source's loop.
- While the caller waits, other parts of the client might change other slots of the reply table. The model does not capture this: only the `DHT_DATA` slot changes during the wait.
- A missing `DHT_DATA` key in the reply table is not modelled. The source would fail iterating over `None`, so the model makes "the slot holds a string" a precondition of `DhtGetData` and `GetDataSpec`.
- `_send_sysex`, the initialisation of `query_reply_data`, `sleep_tune` and the rest of the base client are not part of this model. They are foreign code. The transport is a ghost command log (`SendSysex`), and the table starts as whatever the `ExtPyMataCore` constructor is given.
- The wire framing of sent commands is not modelled. Firmata's start/end bytes and 7-bit data bytes live in the base client.
- Dispatching an inbound frame to the handler is not modelled. That step belongs to the base client.
- The `print(data)` in `_dht_data` is not modelled, because it is console output.
- The constructors of `ExtPyMataCore` and `ExtPyMata3` are not modelled. They only forward serial/TCP settings to the base classes.
- Temperature/humidity parsing, per-pin reply slots and an "unconfigured pin" error are not modelled, because the source has none of them.
