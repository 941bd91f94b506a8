/** The optional-value type shared by the decoder, the line reader and the plot windows. */
module Wrappers {

  /** `None` stands for "no value": a field that does not decode, a line that never ends,
      an axis that gets no new limits. */
  datatype Option<+T> = None | Some(value: T)
}
