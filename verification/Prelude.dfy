/** Types shared by every module of the model. */
module Prelude {
  datatype Option<+T> = None | Some(value: T)

  type byte = x: int | 0 <= x < 256
  type word = x: int | 0 <= x < 0x1_0000

  function Low(w: word): byte { w % 256 }

  function High(w: word): byte { w / 256 }

  function Word(lo: byte, hi: byte): word { lo + 256 * hi }

  function Min(a: int, b: int): int { if a <= b then a else b }

  /** The pieces of a text between separators, as many as there are separators and one more. */
  function SplitAt(s: string, sep: char): (r: seq<string>)
    ensures r != []
  {
    if s == "" then [""]
    else if s[0] == sep then [""] + SplitAt(s[1..], sep)
    else var r := SplitAt(s[1..], sep); [[s[0]] + r[0]] + r[1..]
  }

  lemma DivModUnique(n: nat, d: nat, q: nat, r: nat)
    requires d > 0 && r < d && n == q * d + r
    ensures n / d == q && n % d == r
  {
    var q', r' := n / d, n % d;
    assert n == q' * d + r' && 0 <= r' < d;
    assert (q' - q) * d == q' * d - q * d && (q - q') * d == q * d - q' * d;
    if q' > q { Multiple(q' - q, d); }
    if q' < q { Multiple(q - q', d); }
  }

  lemma Multiple(k: nat, d: nat)
    requires k >= 1
    ensures k * d >= d
  {
    assert k * d == d + (k - 1) * d;
  }
}
