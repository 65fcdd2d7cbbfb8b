/**
 * How PHP reads a single-quoted string literal: `\\` stands for a backslash,
 * `\'` for a quote, any other backslash is kept as is, and an unescaped quote
 * ends the literal. Used to state what the generated `wp-config.php` means.
 */
module Php {
  import opened Wrappers

  /** The characters between the quotes, decoded; `None` when an unescaped quote
      ends the literal early or the closing quote is escaped. */
  function DecodeSingleQuoted(body: string): Option<string>
    decreases |body|
  {
    if body == [] then Some([])
    else if body[0] == '\'' then None
    else if body[0] == '\\' && |body| == 1 then None
    else if body[0] == '\\' && (body[1] == '\\' || body[1] == '\'') then
      match DecodeSingleQuoted(body[2..])
      case None => None
      case Some(rest) => Some([body[1]] + rest)
    else
      match DecodeSingleQuoted(body[1..])
      case None => None
      case Some(rest) => Some([body[0]] + rest)
  }

  /** The value of a complete single-quoted literal. */
  function Unquote(literal: string): Option<string> {
    if |literal| >= 2 && literal[0] == '\'' && literal[|literal| - 1] == '\''
    then DecodeSingleQuoted(literal[1..|literal| - 1])
    else None
  }
}
