/** The values the gateway passes around: packets, receipts, stored records and results. */
module Domain {

  const TWO_TO_THE_63: int := 0x8000_0000_0000_0000
  const TWO_TO_THE_64: int := 0x1_0000_0000_0000_0000

  /** std::uint64_t without its wrap-around; where wrapping matters it is written out. */
  type u64 = n: int | 0 <= n < TWO_TO_THE_64

  datatype Option<+T> = None | Some(value: T)

  /** A telemetry packet as a device sent it. Text is a sequence of single-byte characters. */
  datatype TelemetryPacket = TelemetryPacket(
    deviceId: string,
    timestamp: u64,
    telemetryJson: string,
    hashHex: string,
    signature: string,
    pubKeyId: string,
    transport: string,
    batchCode: string)

  datatype BlockchainReceipt = BlockchainReceipt(
    txHash: string,
    blockHeight: u64,
    submittedAt: string)

  datatype TelemetryRecord = TelemetryRecord(
    recordId: nat,
    packet: TelemetryPacket,
    receipt: Option<BlockchainReceipt>)

  datatype IngestResult = IngestResult(
    accepted: bool,
    message: string,
    recordId: nat,
    receipt: Option<BlockchainReceipt>,
    processingMs: u64)

  datatype MetricsSnapshot = MetricsSnapshot(
    totalRequests: nat,
    acceptedRequests: nat,
    rejectedRequests: nat,
    averageProcessingMs: nat,
    repositorySize: nat)
}
