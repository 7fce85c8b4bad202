/** The key expansion of section 5.2 of FIPS 197, over columns. */
module AesKeys {
  import opened Gf256
  import opened AesSpec

  /** The round constant x^(i-1). */
  function Rcon(i: int): bv8
    decreases i
  {
    if i <= 1 then 1 else Times2(Rcon(i - 1))
  }

  function RconCol(i: int): Col {
    Col(Rcon(i), 0, 0, 0)
  }

  /** What is added to the column nk places back to get column i. */
  function Step(temp: Col, nk: nat, i: nat): Col
    requires nk > 0
  {
    if i % nk == 0 then XorCol(SubCol(Rotate(temp)), RconCol(i / nk))
    else if nk > 6 && i % nk == 4 then SubCol(temp)
    else temp
  }

  /** Column i of the expanded key. */
  function Expanded(key: seq<Col>, i: nat): Col
    requires |key| > 0
    decreases i
  {
    if i < |key| then key[i]
    else XorCol(Expanded(key, i - |key|), Step(Expanded(key, i - 1), |key|, i))
  }

  function RoundKey(key: seq<Col>, r: nat): Block
    requires |key| > 0
  {
    Block(Expanded(key, 4 * r), Expanded(key, 4 * r + 1), Expanded(key, 4 * r + 2), Expanded(key, 4 * r + 3))
  }

  function RoundKeys(key: seq<Col>, rounds: nat): seq<Block>
    requires |key| > 0
  {
    seq(rounds + 1, r requires r >= 0 => RoundKey(key, r))
  }
}
