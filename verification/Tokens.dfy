/** The tokens the expression parser and the macro splitter tell apart. */
module Tokens {
  datatype Token =
    | END_OF_FILE
    | INTEGER_LITERAL(value: string) | TRUE | FALSE | NULL_KW
    | LPAREN | RPAREN | LBRACKET | RBRACKET | LBRACE | RBRACE | COMMA | COLON
    | QUESTION | QUESTION_QUESTION | QUESTION_DOT | BANG_DOT | DOT | IS
    | OR_OR | AND_AND | PIPE | CARET | AMPERSAND | EQUAL_EQUAL | BANG_EQUAL
    | LESS | LESS_EQUAL | GREATER | GREATER_EQUAL | LESS_LESS | GREATER_GREATER
    | PLUS | MINUS | STAR | SLASH | PERCENT
    | BANG | TILDE | AWAIT | PLUS_PLUS | MINUS_MINUS
    | OTHER(kind: nat, text: string)
}
