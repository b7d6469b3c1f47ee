/**
 What the page reads from a thrown value to tell errors apart.
 */
module Errors {
  /** The `code` property of a thrown value: absent, a string such as
      "ACTION_REJECTED" (ethers), or a number such as 4001 (EIP-1193). */
  datatype Code = NoCode | TextCode(text: string) | NumberCode(number: int)
}
