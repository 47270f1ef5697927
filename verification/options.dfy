/** An optional value: `None` stands for JavaScript's `null`, `undefined`
    and `NaN` wherever the application uses them as "no value". */
module Options {

  datatype Option<+T> = None | Some(value: T)
}
