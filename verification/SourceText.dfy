/** Parts of source text: the units of strings, and where a part stands in a text. */
module SourceText {
  /** One character of a string, or a backslash with the character that it escapes. */
  datatype Unit = Plain(c: char) | Escaped(c: char)

  function UnitText(u: Unit): string {
    match u
    case Plain(c) => [c]
    case Escaped(c) => ['\\', c]
  }

  function UnitsText(us: seq<Unit>): string {
    if us == [] then "" else UnitText(us[0]) + UnitsText(us[1..])
  }

  /** `part` stands in `t` at `p`. */
  predicate Stands(t: string, p: nat, part: string) {
    p + |part| <= |t| && t[p..p + |part|] == part
  }

  lemma StandsBoth(t: string, p: nat, a: string, b: string)
    requires Stands(t, p, a + b)
    ensures Stands(t, p, a) && Stands(t, p + |a|, b)
  {
    assert t[p..p + |a|] == (a + b)[..|a|];
    assert t[p + |a|..p + |a| + |b|] == (a + b)[|a|..];
  }

  lemma StandsAt(t: string, p: nat, part: string, k: nat)
    requires Stands(t, p, part) && k < |part|
    ensures t[p + k] == part[k]
  {
    assert t[p..p + |part|][k] == part[k];
  }

  lemma StandsIn(t: string, p: nat, part: string)
    requires Stands(t, p, part)
    ensures p + |part| <= |t|
  {
  }
}
