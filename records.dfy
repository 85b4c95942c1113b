/**
 * The records held in a store. The catalog entry (`Item`) and the client
 * entry (`Client`) of the C# program differ only in payload fields the store
 * never reads, so both are modelled by one class. Neither overrides equality:
 * two records are the same exactly when they are the same object. The
 * identifier is fixed at construction and need not be unique.
 */
module Records {
  import opened Numerics

  class Record {
    const Identifier: int32

    constructor (id: int32)
      ensures Identifier == id
    {
      Identifier := id;
    }
  }
}
