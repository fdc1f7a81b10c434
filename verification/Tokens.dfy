/** The tokens the parser reads, and the operators among them. */
module Tokens {
  import opened Words
  import opened Il

  datatype Token =
    | TIdent(name: string) | TNumeric(text: string) | TChar(code: int)
    | TOpBracket | TClBracket | TOpCurly | TClCurly | TOpSquare | TClSquare
    | TStar | TAmpersand | TPlus | TMinus | TLshift | TRshift | TLogAnd | TLogOr | TBitOr
    | TEq | TNoteq | TLt | TLe | TGt | TGe | TLogNot | TPlusPlus | TMinusMinus
    | TAssign | TPlusEq | TMinusEq | TOrEq | TAndEq
    | TComma | TSemicolon | TColon | TDot | TArrow
    | TReturn | TIf | TElse | TWhile | TFor | TDo | TSwitch | TCase | TDefault | TBreak
    | TOther | TEof

  function Peek(ts: seq<Token>, i: nat): Token {
    if i < |ts| then ts[i] else TEof
  }

  function Operator(t: Token): Option<BinaryOp> {
    match t
    case TPlus => Some(Add)
    case TMinus => Some(Sub)
    case TStar => Some(Mul)
    case TLshift => Some(BitLshift)
    case TRshift => Some(BitRshift)
    case TLogAnd => Some(LogAnd)
    case TLogOr => Some(LogOr)
    case TEq => Some(Equals)
    case TNoteq => Some(NotEquals)
    case TLt => Some(LessThan)
    case TLe => Some(LessEqThan)
    case TGt => Some(GreaterThan)
    case TGe => Some(GreaterEqThan)
    case TAmpersand => Some(BitAnd)
    case TBitOr => Some(BitOr)
    case _ => None
  }
}
