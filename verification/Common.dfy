/** Small things that several components share. */
module Common {

  datatype Option<T> = None | Some(value: T)

  const NUL: char := 0 as char

  function FlagOf(b: bool): nat {
    if b then 1 else 0
  }

  predicate IsDigit(c: char) {
    '0' <= c <= '9'
  }

  /** White space of the C locale: the blank and the codes 9 to 13. */
  predicate IsSpace(c: char) {
    c == ' ' || 9 <= c as int <= 13
  }

  /** The text from its first character on that is no blank. */
  function SkipSpace(s: string): (t: string)
    ensures |t| <= |s|
  {
    if s != "" && IsSpace(s[0]) then SkipSpace(s[1..]) else s
  }

  /** Chequers on 24 points and the bar, each side counted from its own home. */
  type Side = s: seq<nat> | |s| == 25 ghost witness seq(25, _ => 0)

  datatype Board = Board(opp: Side, player: Side) {
    function Swapped(): Board {
      Board(player, opp)
    }
  }
}
