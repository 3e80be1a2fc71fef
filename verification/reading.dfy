/**
 * Where the code as written and its evident intent part ways, the model
 * keeps both: the members that take a `Reading` compute either one, so the
 * behaviour as written and the corrected behaviour are stated side by side.
 */
module Readings {
  datatype Reading = AsWritten | Corrected
}
