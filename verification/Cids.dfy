/** Block identifiers. */
module Cids {

  type Cid = string
}
