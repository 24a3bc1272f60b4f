/**
 Transactions, block headers and blocks, with the structural validity rule of
 `Transaction_Verify`.  Hash functions and signature checks are foreign code, so they
 are function values carried by a `Crypto` record: every result holds for all of them.
 */
module Transactions {
  import opened Words

  type Hash = u256
  type Address = u256
  type PublicKey = x: int | 0 <= x < 0x100 * TWO_256       // 33 bytes
  type Signature = x: int | 0 <= x < TWO_256 * TWO_256     // 64 bytes
  type Reserved = x: int | 0 <= x < 0x1_0000_0000_0000       // 6 bytes

  // 32 bytes of 0xFF mark the coinbase sender; 32 zero bytes mark an unused recipient.
  const COINBASE: Address := TWO_256 - 1
  const ZERO_ADDRESS: Address := 0

  datatype Transaction = Transaction(
    timestamp: u64, fee: u64, amount1: u64, amount2: u64,
    sender: Address, recipient1: Address, recipient2: Address,
    publicKey: PublicKey, version: u8, reserved: Reserved)

  datatype SignedTx = SignedTx(tx: Transaction, signature: Signature)

  datatype Header = Header(
    blockNumber: u64, timestamp: u64, nonce: u64, prevHash: Hash, merkleRoot: Hash,
    difficultyTarget: u32, version: u8, vote: u8, spare1: u8, spare2: u8)

  datatype Block = Block(header: Header, txs: seq<SignedTx>)

  datatype Crypto = Crypto(
    addressOf: PublicKey -> Address,
    txHash: Transaction -> Hash,
    signatureOk: (Hash, Signature, PublicKey) -> bool,
    blockHash: Header -> Hash,
    // proof-of-work hash of a header for a DAG size in bytes and an epoch seed
    powHash: (Header, nat, Hash) -> u256)

  predicate IsCoinbase(t: SignedTx) { t.tx.sender == COINBASE }

  // What the sender loses: two amounts and the fee (three 64-bit values never overflow 256 bits).
  function Spend(tx: Transaction): (spend: u256)
    ensures spend < 3 * TWO_64
  {
    tx.amount1 + tx.amount2 + tx.fee
  }

  // Transaction_Verify.
  predicate Verify(c: Crypto, t: SignedTx) {
    var tx := t.tx;
    if tx.sender == COINBASE then
      && tx.amount1 != 0
      && tx.amount2 == 0
      && tx.recipient1 != COINBASE && tx.recipient2 != COINBASE
      && tx.recipient2 == ZERO_ADDRESS
    else
      && c.addressOf(tx.publicKey) == tx.sender
      && tx.amount1 != 0
      && tx.fee <= tx.amount1
      && tx.version == 1
      && tx.recipient1 != COINBASE && tx.recipient2 != COINBASE
      && (tx.amount2 == 0 ==> tx.recipient2 == ZERO_ADDRESS)
      && c.signatureOk(c.txHash(tx), t.signature, tx.publicKey)
  }

  // The check Transaction_Verify leaves out: a second amount needs a second recipient.
  predicate SecondRecipientOk(tx: Transaction) {
    tx.amount2 > 0 ==> tx.recipient2 != ZERO_ADDRESS
  }

  predicate SecondRecipientsOk(txs: seq<SignedTx>) {
    forall i :: 0 <= i < |txs| ==> SecondRecipientOk(txs[i].tx)
  }
}
