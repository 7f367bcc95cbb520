/** Token kinds and tokens, as declared for the lexer. */
module Tokens {

  /** The 25 token kinds, in declaration order. */
  datatype TokenKind =
    | INTEGER | PLUS | MINUS | MUL | DIV | LPAREN | RPAREN | IDENTIFIER | ASSIGN
    | END_OF_FILE | UNKNOWN | PRINT | SEMICOLON | IF | ELSE | STRING | COMMA
    | EQUAL | GREATER | LESS | NOT_EQUAL | GREATER_EQUAL | LESS_EQUAL | COLON | TAB

  /** A token is its kind and the text it was made from. */
  datatype Token = Token(kind: TokenKind, lexeme: string)

  /** The integer a TokenKind converts to (its position in the declaration). */
  function Ordinal(k: TokenKind): (n: nat)
    ensures n < 25
  {
    match k
    case INTEGER => 0 case PLUS => 1 case MINUS => 2 case MUL => 3 case DIV => 4
    case LPAREN => 5 case RPAREN => 6 case IDENTIFIER => 7 case ASSIGN => 8
    case END_OF_FILE => 9 case UNKNOWN => 10 case PRINT => 11 case SEMICOLON => 12
    case IF => 13 case ELSE => 14 case STRING => 15 case COMMA => 16 case EQUAL => 17
    case GREATER => 18 case LESS => 19 case NOT_EQUAL => 20 case GREATER_EQUAL => 21
    case LESS_EQUAL => 22 case COLON => 23 case TAB => 24
  }

  /** The kind with a given ordinal. */
  function FromOrdinal(n: nat): TokenKind
    requires n < 25
  {
    [INTEGER, PLUS, MINUS, MUL, DIV, LPAREN, RPAREN, IDENTIFIER, ASSIGN,
     END_OF_FILE, UNKNOWN, PRINT, SEMICOLON, IF, ELSE, STRING, COMMA,
     EQUAL, GREATER, LESS, NOT_EQUAL, GREATER_EQUAL, LESS_EQUAL, COLON, TAB][n]
  }

  /** The enumeration is closed and has exactly 25 members: Ordinal is a
      bijection between the kinds and 0..24. */
  lemma OrdinalBijection(k: TokenKind, n: nat)
    requires n < 25
    ensures FromOrdinal(Ordinal(k)) == k
    ensures Ordinal(FromOrdinal(n)) == n
  {
    FromOrdinalOrdinal(k);
    OrdinalFromOrdinal(n);
  }

  lemma FromOrdinalOrdinal(k: TokenKind)
    ensures FromOrdinal(Ordinal(k)) == k
  {
    match k
    case INTEGER => case PLUS => case MINUS => case MUL => case DIV =>
    case LPAREN => case RPAREN => case IDENTIFIER => case ASSIGN =>
    case END_OF_FILE => case UNKNOWN => case PRINT => case SEMICOLON =>
    case IF => case ELSE => case STRING => case COMMA => case EQUAL =>
    case GREATER => case LESS => case NOT_EQUAL => case GREATER_EQUAL =>
    case LESS_EQUAL => case COLON => case TAB =>
  }

  lemma OrdinalFromOrdinal(n: nat)
    requires n < 25
    ensures Ordinal(FromOrdinal(n)) == n
  {
  }

  /** Distinct kinds have distinct ordinals. */
  lemma OrdinalInjective(j: TokenKind, k: TokenKind)
    ensures Ordinal(j) == Ordinal(k) ==> j == k
  {
    if Ordinal(j) == Ordinal(k) {
      OrdinalBijection(j, 0);
      OrdinalBijection(k, 0);
    }
  }
}
