/** The optional value used wherever the scripts get back "nothing": a date
    string that strptime rejects, a dictionary key that is absent, a field
    rule that leaves the row alone. */
module Wrappers {

  datatype Option<+T> = None | Some(value: T)
}
