/**
 Names that several modules share.
 */
module Basics {
  datatype Option<+T> = None | Some(value: T)

  /** The two implementations: `src/` and its port in `zig/`. */
  datatype Port = Rust | Zig

  /** A relation, kept in a SQLite file of its own. */
  type Rel = nat
}
