/** Stream identifiers (StreamConfig) and Storm's own tick-tuple identifiers. */
module Streams {

  /** Tuples from the spout to the counting bolts. */
  const DataStream: string := "dataStream"
  /** The spout's end-of-input signal. */
  const TickStream: string := "tickStream"
  /** Top-K snapshots from the counting bolts to the aggregator. */
  const TopKStream: string := "topKStream"
  /** Ids whose estimate is requested, from the spout to the counting bolts. */
  const CustomUserIdsStream: string := "customUserIdsStream"
  /** Estimates of the requested ids, from the counting bolts to the aggregator. */
  const CustomUserIdsCountStream: string := "customUserIdsCountStream"

  /** Storm's `Constants.SYSTEM_COMPONENT_ID` and `Constants.SYSTEM_TICK_STREAM_ID`. */
  const SystemComponentId: string := "__system"
  const SystemTickStreamId: string := "__tick"
}
