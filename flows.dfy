/**
 * A flow record as the driver reads it from the data array: only the four
 * fields the graph plots are kept (`sip`, `dip`, `dport`, `packets`); the
 * record's other fields (protocol, duration, bytes, ...) are never read.
 */
module Flows {

  datatype FlowRecord = FlowRecord(sip: string, dip: string, dport: int, packets: int)

  /** The `sip` of every record, in record order. */
  function SourceColumn(data: seq<FlowRecord>): (col: seq<string>)
    ensures |col| == |data| && forall i :: 0 <= i < |data| ==> col[i] == data[i].sip
  {
    seq(|data|, i requires 0 <= i < |data| => data[i].sip)
  }

  /** The `dip` of every record, in record order. */
  function DestinationColumn(data: seq<FlowRecord>): (col: seq<string>)
    ensures |col| == |data| && forall i :: 0 <= i < |data| ==> col[i] == data[i].dip
  {
    seq(|data|, i requires 0 <= i < |data| => data[i].dip)
  }

  /** The `dport` of every record, in record order. */
  function PortColumn(data: seq<FlowRecord>): (col: seq<int>)
    ensures |col| == |data| && forall i :: 0 <= i < |data| ==> col[i] == data[i].dport
  {
    seq(|data|, i requires 0 <= i < |data| => data[i].dport)
  }

  /** The `packets` of every record, in record order. */
  function PacketColumn(data: seq<FlowRecord>): (col: seq<int>)
    ensures |col| == |data| && forall i :: 0 <= i < |data| ==> col[i] == data[i].packets
  {
    seq(|data|, i requires 0 <= i < |data| => data[i].packets)
  }
}
