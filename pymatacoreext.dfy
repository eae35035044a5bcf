/** The DHT extension of the Firmata client (class `ExtPyMataCore` of
    pymatacoreext.py): the configure command, the data request with its reply
    post-processing, the inbound data handler and the extension's dispatch table.

    The base client is not part of this model. Its `_send_sysex` is a ghost log of
    the commands sent, its `query_reply_data` table is a map from command code to
    the stored reply as code points, and the timed polling wait of a data request
    is an outcome the caller supplies. */
module PyMataCoreExt {
  import opened ExtConstants
  import opened ReplyFilter

  datatype Option<T> = None | Some(value: T)

  /** One sysex command handed to the transport: its code and its data bytes. */
  datatype Command = Command(code: int, payload: seq<int>)

  /** How the two-second wait for a reply ends: some other part of the client
      wrote a (non-empty) reply into the slot, or the deadline passed first. */
  datatype WaitOutcome = Arrived(reply: seq<CodePoint>) | TimedOut

  /** The wait only ends with a reply once the slot is no longer empty. */
  predicate WaitWellFormed(wait: WaitOutcome) {
    wait.Arrived? ==> wait.reply != []
  }

  /** The handlers this extension contributes to the base client's dispatcher. */
  datatype Handler = DhtDataHandler

  /** The command `dht_config` sends: the type first, then the pin. */
  function ConfigCommand(dhtType: int, dhtPin: int): Command {
    Command(DHT_CONFIG, [dhtType, dhtPin])
  }

  /** The request `dht_get_data` sends when its reply slot is empty. */
  function RequestCommand(dhtPin: int): Command {
    Command(DHT_DATA, [dhtPin])
  }

  /** A sensor configured as DHT21 and one configured as AM2301 receive the same
      command, whose payload puts the type before the pin. */
  lemma ConfigAliasesIndistinguishable(dhtPin: int)
    ensures ConfigCommand(DHT_TYPE_DHT21, dhtPin) == ConfigCommand(DHT_TYPE_AM2301, dhtPin)
    ensures ConfigCommand(DHT_TYPE_DHT21, dhtPin).payload == [21, dhtPin]
  {
  }

  /** What one call of `dht_get_data` does to the reply table: the new table, the
      commands sent during the call, and the value returned. */
  datatype Exchange = Exchange(slots: map<int, seq<CodePoint>>, sent: seq<Command>, reply: Option<seq<CodePoint>>)

  /** The specification of `dht_get_data` on the reply table `slots`. */
  function GetDataSpec(slots: map<int, seq<CodePoint>>, dhtPin: int, wait: WaitOutcome): (e: Exchange)
    requires DHT_DATA in slots
    requires WaitWellFormed(wait)
    // a request with payload [dhtPin] goes out exactly when the slot is empty on entry
    ensures e.sent == (if slots[DHT_DATA] == [] then [Command(DHT_DATA, [dhtPin])] else [])
    // nothing comes back only when a request went out and the wait timed out
    ensures e.reply.None? <==> slots[DHT_DATA] == [] && wait.TimedOut?
    // and then the table is untouched
    ensures e.reply.None? ==> e.slots == slots
    // otherwise the slot holds exactly the value returned, which has no NUL in it
    ensures e.reply.Some? ==> DHT_DATA in e.slots && e.slots[DHT_DATA] == e.reply.value && 0 !in e.reply.value
    // a reply already stored is filtered and returned directly
    ensures slots[DHT_DATA] != [] ==> e.reply == Some(RemoveZeros(slots[DHT_DATA]))
    // a reply that arrived during the wait is filtered and returned
    ensures slots[DHT_DATA] == [] && wait.Arrived? ==> e.reply == Some(RemoveZeros(wait.reply))
    // no other slot changes
    ensures e.slots.Keys == slots.Keys
    ensures forall k :: k in slots && k != DHT_DATA ==> e.slots[k] == slots[k]
  {
    var stored := slots[DHT_DATA];
    if stored == [] && wait.TimedOut? then
      Exchange(slots, [RequestCommand(dhtPin)], None)
    else
      var sent := if stored == [] then [RequestCommand(dhtPin)] else [];
      var raw := if stored == [] then wait.reply else stored;
      var reply := RemoveZeros(raw);
      Exchange(slots[DHT_DATA := reply], sent, Some(reply))
  }

  /** The slot is not cleared after a read: once a call has returned a non-empty
      reply, the next call sends nothing, leaves the table as it is and returns the
      same reply again, whatever pin it asks for and however its wait would end. */
  lemma {:induction false} GetDataRepeatReplays(slots: map<int, seq<CodePoint>>, dhtPin: int, wait: WaitOutcome,
                                                nextPin: int, nextWait: WaitOutcome)
    requires DHT_DATA in slots
    requires WaitWellFormed(wait) && WaitWellFormed(nextWait)
    requires GetDataSpec(slots, dhtPin, wait).reply.Some?
    requires GetDataSpec(slots, dhtPin, wait).reply.value != []
    ensures var first := GetDataSpec(slots, dhtPin, wait);
            var second := GetDataSpec(first.slots, nextPin, nextWait);
            second.sent == [] && second.reply == first.reply && second.slots == first.slots
  {
    var first := GetDataSpec(slots, dhtPin, wait);
    var v := first.reply.value;
    RemoveZerosUnchanged(v);
    assert first.slots[DHT_DATA := v] == first.slots;
  }

  /** A reply made only of NUL characters filters to the empty string, which empties
      the slot again: the next call sends a fresh request. */
  lemma {:induction false} GetDataAllZeroReplyRearms(slots: map<int, seq<CodePoint>>, dhtPin: int, wait: WaitOutcome,
                                                     nextPin: int, nextWait: WaitOutcome)
    requires DHT_DATA in slots
    requires WaitWellFormed(wait) && WaitWellFormed(nextWait)
    requires slots[DHT_DATA] != []
    requires forall i :: 0 <= i < |slots[DHT_DATA]| ==> slots[DHT_DATA][i] == 0
    ensures GetDataSpec(slots, dhtPin, wait).reply == Some([])
    ensures GetDataSpec(GetDataSpec(slots, dhtPin, wait).slots, nextPin, nextWait).sent == [RequestCommand(nextPin)]
  {
    RemoveZerosEmpty(slots[DHT_DATA]);
  }

  /** The object the extension adds its commands to. */
  class ExtPyMataCore {
    /** The base client's reply table, keyed by command code. */
    var queryReplyData: map<int, seq<CodePoint>>
    /** Every command handed to the transport so far, oldest first. */
    ghost var sent: seq<Command>

    /** A client whose reply table starts as `replies` and that has sent nothing. */
    constructor (replies: map<int, seq<CodePoint>>)
      ensures queryReplyData == replies && sent == []
    {
      queryReplyData := replies;
      sent := [];
    }

    /** The base client's `_send_sysex`: hand one command to the transport. */
    method SendSysex(code: int, payload: seq<int>)
      modifies this`sent
      ensures sent == old(sent) + [Command(code, payload)]
    {
      sent := sent + [Command(code, payload)];
    }

    /** `dht_config`: send one configure command, type before pin; the reply table
        is not touched. */
    method DhtConfig(dhtType: int, dhtPin: int)
      modifies this`sent
      ensures sent == old(sent) + [ConfigCommand(dhtType, dhtPin)]
      ensures sent[|sent| - 1] == Command(DHT_CONFIG, [dhtType, dhtPin])
    {
      SendSysex(DHT_CONFIG, [dhtType, dhtPin]);
    }

    /** `dht_get_data`: request a reply if the slot is empty, wait for it, then
        filter the NULs out of the stored reply, store the result and return it. */
    method DhtGetData(dhtPin: int, wait: WaitOutcome) returns (r: Option<seq<CodePoint>>)
      requires DHT_DATA in queryReplyData
      requires WaitWellFormed(wait)
      modifies this`queryReplyData, this`sent
      ensures var e := GetDataSpec(old(queryReplyData), dhtPin, wait);
              queryReplyData == e.slots && sent == old(sent) + e.sent && r == e.reply
      ensures r.Some? ==> DHT_DATA in queryReplyData && r.value == queryReplyData[DHT_DATA] && 0 !in r.value
      ensures old(queryReplyData[DHT_DATA]) != [] ==> sent == old(sent)
    {
      if queryReplyData[DHT_DATA] == [] {
        SendSysex(DHT_DATA, [dhtPin]);
        match wait
        case TimedOut =>
          r := None;
          return;
        case Arrived(arrived) =>
          // some other part of the client fills the slot while the caller waits
          queryReplyData := queryReplyData[DHT_DATA := arrived];
      }
      var reply := FilterReply(queryReplyData[DHT_DATA]);
      queryReplyData := queryReplyData[DHT_DATA := reply];
      r := Some(queryReplyData[DHT_DATA]);
    }

    /** `_dht_data`, the handler of inbound DHT data frames: drop the sysex start
        and end bytes (Python's `data[1:-1]`, empty for frames shorter than two).
        Being a function, it leaves the reply table alone. */
    static function DhtData(data: seq<int>): (payload: seq<int>)
      ensures |data| >= 2 ==> |payload| == |data| - 2
      ensures |data| >= 2 ==> forall i :: 0 <= i < |payload| ==> payload[i] == data[i + 1]
      ensures |data| < 2 ==> payload == []
    {
      if |data| < 2 then [] else data[1..|data| - 1]
    }

    /** `extended_command_dictionary`: the one inbound code this extension handles. */
    static function ExtendedCommandDictionary(): (d: map<int, Handler>)
      ensures d.Keys == {DHT_DATA}
    {
      map[DHT_DATA := DhtDataHandler]
    }
  }

  /** The handler undoes sysex framing: whatever the markers, a framed body comes
      back unchanged. */
  lemma DhtDataStripsFraming(start: int, body: seq<int>, end: int)
    ensures ExtPyMataCore.DhtData([start] + body + [end]) == body
  {
  }
}
