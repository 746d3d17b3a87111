/**
 * The generator's text helpers (`gen.base()`: `format_type_name`, `modify_type`,
 * `format_name`, `format_comment` (a comment and its indent width), `indent`,
 * `indent_size`, `mod_name`, `join_subtypes`, and `default_format_type`). Their bodies are not part of this model; the generators
 * receive them as a record of functions.
 */
module Formatting {
  import opened Wrappers
  import opened Types

  datatype Formatter = Formatter(
    formatTypeName: string -> string,
    modifyType: (string, seq<TypeModifier>) -> string,
    formatName: string -> string,
    formatComment: (Option<string>, nat) -> string,
    indent: string,
    indentSize: nat,
    modName: string -> string,
    defaultFormatType: string -> string,
    joinSubtypes: seq<RsEntity> -> string)
}
