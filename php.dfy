/**
 * The parts of PHP's own semantics that the handlers depend on: session values with isset()
 * and empty(), and the builtins the model does not interpret (parsing dates, validating URLs and
 * e-mail addresses, HTML escaping, password hashing), which are passed in as a record of functions.
 */
module Php {
  import opened Wrappers
  import Text

  /** A scalar PHP value, as stored in $_SESSION or read from a form. */
  datatype Value = Null | Bool(b: bool) | Int(i: int) | Str(s: string)

  /** empty($v): null, false, 0, "" and "0" are empty. */
  predicate IsEmpty(v: Value) {
    match v
    case Null => true
    case Bool(b) => !b
    case Int(i) => i == 0
    case Str(s) => Text.IsEmptyString(s)
  }

  /** isset($m[$k]): the key is present and not null. */
  predicate IsSet(m: map<string, Value>, k: string) {
    k in m && m[k] != Null
  }

  /** empty($m[$k]): an absent key is empty too. */
  predicate EmptyAt(m: map<string, Value>, k: string) {
    k !in m || IsEmpty(m[k])
  }

  /**
   * The PHP builtins the handlers call but the model does not interpret.
   * `strtotime` answers None where PHP returns false; `number` answers None where is_numeric
   * is false and otherwise the numeric value.
   */
  datatype Builtins = Builtins(
    strtotime: string -> Option<int>,
    number: string -> Option<real>,
    validUrl: string -> bool,
    validEmail: string -> bool,
    escape: string -> string,
    stripTags: string -> string,
    passwordHash: string -> string,
    passwordVerify: (string, string) -> bool)
}
