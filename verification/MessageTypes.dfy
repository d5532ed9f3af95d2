/** The message payloads exchanged between coordinator and workers. */
module MessageTypes {
  import opened Basics
  import opened WarmthObjects

  const PROTOCOL_VERSION: Word32 := 1

  datatype Hello = Hello(
    version: Word32, worker: Id128, boot: Id128, node: Id128, epochGuess: Word64, backend: Text,
    devices: seq<Text>, actions: seq<Byte>, observed: seq<WarmthObject>)

  datatype HelloAck = HelloAck(
    accepted: bool, reason: Text, epoch: Word64, warmthGen: Word64, depGen: Word64, policyGen: Word64)

  /** The authority a worker claims to act under. */
  datatype Tag = Tag(epoch: Word64, warmthGen: Word64, depGen: Word64)

  datatype Report = Report(boot: Id128, tag: Tag, objects: seq<WarmthObject>)

  datatype WarmCmd = WarmCmd(obj: Id128, action: Byte, attempt: Word64)

  datatype WarmTopic = WarmTopic(epoch: Word64, warmthGen: Word64, cmds: seq<WarmCmd>)

  datatype WarmResult = WarmResult(
    boot: Id128, tag: Tag, obj: Id128, action: Byte, attempt: Word64,
    success: bool, duration: Word64, bytes: Word64, error: Text)
}
