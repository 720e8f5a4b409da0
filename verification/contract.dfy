/** The contract calls the pages submit through the wallet. The wallet, the
    RPC transport and the contract itself are outside the model: a call is a
    record of the function name, its arguments and the ether value attached. */
module Contract {

  /** An argument: an unsigned integer (`bigint`) or a string. */
  datatype Arg = Uint(n: int) | Text(s: string)

  /** One `writeContractAsync` request; `value` is in wei. */
  datatype Call = Call(fn: string, args: seq<Arg>, value: int)
}
