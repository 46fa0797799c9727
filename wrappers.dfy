/** The optional value used wherever the kernel code returns `Option` or a
    `Result` whose error carries no information (`ArrayQueue::pop`,
    `OnceCell::try_get`, `checked_add`). */
module Wrappers {

  datatype Option<+T> = None | Some(value: T)
}
