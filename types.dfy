/**
 * Values shared by the `validate` command and the validators it dispatches to.
 */
module Types {

  datatype Option<+T> = None | Some(value: T)

  /** A validator's stable name, used both for selection and for listing. */
  type Name = string

  /** A file or directory path handed to the validators. */
  type Target = string

  /** One finding a validator records in the report; its structure belongs to
      the report code and is not part of this model. */
  type Finding = string

  /**
   * The options hash passed to every invoked validator.
   * `targets` is None when the hash has no `:targets` key; `autoCorrect` and
   * `parallel` are true exactly when the hash holds that key (whose value is
   * then always `true`).
   */
  datatype Options = Options(targets: Option<seq<Target>>, autoCorrect: bool, parallel: bool)

  /** What one call of a validator's `invoke` produces: its exit code (0 is
      success) and the findings it appended to the shared report. */
  datatype Invocation = Invocation(code: nat, findings: seq<Finding>)

  /** One call of `invoke`: which validator, with which options. */
  datatype Call<V> = Call(validator: V, options: Options)

  /** A report format: the render method (`:method`) and its destination. */
  datatype Format = Format(renderer: string, target: string)
}
