/** The keys of the store's question and quiz tables. */
module Ids {

  /** The str(uuid.uuid4()) keys of the store, named by the serial number of the uuid4
      call that produced them: distinct calls give distinct keys, and every key is a
      non-empty (truthy) string. */
  datatype Id = Uuid(serial: nat)
}
