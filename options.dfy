/**
 * An optional value, shared by every module: `None` stands for the source's
 * `null`, `undefined` or `NaN`, `Some(v)` for a present value.
 */
module Options {

  datatype Option<+T> = None | Some(value: T)
}
