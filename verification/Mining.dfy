// What a chain announces about the block to be mined.
module Mining {
  import opened Wrappers
  import opened Words

  datatype MiningInfo = MiningInfo(height: nat, generationSignature: string, baseTarget: U64,
                                   targetQuality: Option<U64>)
}
