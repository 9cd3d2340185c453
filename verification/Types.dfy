/** The chain data every replay reads. */
module Types {
  import opened Bytes

  datatype SourceNetwork = SolanaDemo | SolanaDevnet | SolanaMainnet
  datatype DestNetwork = ZcashDemo | ZcashTest | ZcashMain

  datatype ZcashOutput = ZcashOutput(
    index: int, valueZat: int, address: Option<string>, nullData: Option<Bytes>)

  datatype ZcashPublication = ZcashPublication(
    txid: string, network: DestNetwork, height: Option<int>, confirmations: int,
    inBestChain: bool, outputs: seq<ZcashOutput>)
}
