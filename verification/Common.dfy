/** What several of the modules need. */
module Common {

  datatype Option<+V> = None | Some(value: V)

  /** A `char` of the program. */
  type Octet = c: char | c as int < 256 witness '\0'
  type Text = seq<Octet>

  /** White space of the "C" locale, for `\s` and for trim. */
  predicate IsSpace(c: char) { c == ' ' || 9 <= c as int <= 13 }

  /** Space, tab, line feed, vertical tab, form feed and carriage return. */
  lemma SpacesByCode(c: char)
    ensures IsSpace(c) <==> c as int in {32, 9, 10, 11, 12, 13}
  {
  }

  function Abs(n: int): nat { if n < 0 then -n else n }

  function AbsReal(r: real): real { if r < 0.0 then -r else r }
}
