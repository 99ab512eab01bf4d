/** Transaction inputs: references to the outputs of earlier transactions. */
module TxIns {

  datatype TxIn = TxIn(txId: string, index: nat)
}
