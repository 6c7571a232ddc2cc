/** Optional values and success-or-error results, shared by every module of the model.
    `None` plays the part of Python's `None`; a `Failure` stands for a raised exception. */
module Wrappers {

  datatype Option<+T> = None | Some(value: T) {
    function GetOr(default: T): T {
      match this
      case Some(v) => v
      case None => default
    }
  }

  datatype Result<+T, +E> = Success(value: T) | Failure(error: E)

  /** Python truthiness of an integer id: 0 counts as "no id". */
  predicate Truthy(x: int) {
    x != 0
  }

  /** Python truthiness of an optional id or timestamp (`if todo.previous_todo_id:`):
      None and 0 are both false. */
  predicate IsSet(link: Option<int>) {
    link.Some? && link.value != 0
  }

  /** The stored value of an optional field after an update: the given value, or the current one. */
  function Pick<T>(given: Option<T>, current: T): T {
    if given.Some? then given.value else current
  }

  /** The same for a field whose stored value is itself optional. */
  function PickOpt<T>(given: Option<T>, current: Option<T>): Option<T> {
    if given.Some? then given else current
  }
}
