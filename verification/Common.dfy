/** What several components use: options, addresses, and the machine's integers. */
module Common {
  datatype Option<+X> = None | Some(value: X)

  type Addr = nat

  const NULL: Addr := 0

  const MOD64 := 0x1_0000_0000_0000_0000
  const HALF64 := 0x8000_0000_0000_0000
  const HALF32 := 0x8000_0000

  /** InterlockedIncrement and InterlockedDecrement on a 32-bit LONG. */
  function Inc32(x: int): int { if x == HALF32 - 1 then -HALF32 else x + 1 }
  function Dec32(x: int): int { if x == -HALF32 then HALF32 - 1 else x - 1 }

  /** Plus one on a 64-bit LONG64. */
  function Inc64(x: int): int { if x == HALF64 - 1 then -HALF64 else x + 1 }

  /** A 64-bit counter that starts at `start` and has been incremented n times. */
  function Count64(start: int, n: nat): int { (n + start + HALF64) % MOD64 - HALF64 }

  lemma ModEqual(a: int, b: int)
    requires a <= b
    ensures a % MOD64 == b % MOD64 <==> (b - a) % MOD64 == 0
  {
    assert a == MOD64 * (a / MOD64) + a % MOD64 && b == MOD64 * (b / MOD64) + b % MOD64;
    assert b - a == MOD64 * (b / MOD64 - a / MOD64) + (b % MOD64 - a % MOD64);
  }

  /** Two readings agree exactly when as many increments as a multiple of 2^64 lie between them. */
  lemma CountWraps(start: int, v: nat, w: nat)
    requires v <= w
    ensures Count64(start, v) == Count64(start, w) <==> (w - v) % MOD64 == 0
    ensures Inc64(Count64(start, v)) == Count64(start, v + 1)
  {
    ModEqual(v + start + HALF64, w + start + HALF64);
  }
}
