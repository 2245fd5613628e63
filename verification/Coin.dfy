/** The entities of the UTXO set: outpoints, coins and cache entries. */
module Coin {
  type byte = x: int | 0 <= x < 256

  /** A 256-bit hash in memory order. */
  type Hash256 = h: seq<byte> | |h| == 32 witness seq(32, _ => 0)

  type Uint32 = x: int | 0 <= x < 0x1_0000_0000

  datatype OutPoint = OutPoint(hash: Hash256, n: Uint32)

  const MAX_SCRIPT_SIZE := 10000
  const OP_RETURN: byte := 0x6a

  /** An output with its creation height. The null output (value -1) stands for
      a coin that never existed or has been spent. */
  datatype Coin = Coin(value: int, script: seq<byte>, coinbase: bool, height: nat) {
    predicate IsSpent() {
      value == -1
    }

    predicate IsUnspendable() {
      (|script| > 0 && script[0] == OP_RETURN) || |script| > MAX_SCRIPT_SIZE
    }

    /** Heap bytes of the script: up to 28 bytes live inside the object. */
    function MemoryUsage(): nat {
      if |script| <= 28 then 0 else (|script| + 31) / 16 * 16
    }
  }

  const EMPTY_COIN := Coin(-1, [], false, 0)

  /** A coin in one cache level. */
  datatype Entry = Entry(coin: Coin, isDirty: bool, isFresh: bool) {
    /** The five combinations the cache documentation allows. */
    predicate LegalFlags() {
      if coin.IsSpent() then isDirty != isFresh else isFresh ==> isDirty
    }
  }

  const EMPTY_ENTRY := Entry(EMPTY_COIN, false, false)
}
