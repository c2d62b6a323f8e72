/** The playground's value types: the three editor languages, one editor
    panel and the user settings. */
module Types {

  datatype Option<T> = None | Some(value: T)

  /** The closed set of languages an editor can hold. */
  datatype Language = Html | Css | Js

  /** One editor panel. `id` is the React key and the handle used by
      delete and update; `title` is what the panel header shows. */
  datatype Editor = Editor(id: string, title: string, language: Language, code: string)

  /** User settings. `autoRunDelay` is whatever number the settings form
      produced, so it may be negative. */
  datatype Settings = Settings(fontSize: int, autoRun: bool, autoRunDelay: int)

  /** The string form of a language, as stored in `Editor.language`. */
  function Tag(l: Language): (t: string)
    ensures |t| >= 2 && '-' !in t
  {
    match l
    case Html => "html"
    case Css => "css"
    case Js => "js"
  }

  /** Tags of different languages already differ in their first letter. */
  lemma TagHeadDetermines(l: Language, m: Language)
    ensures Tag(l)[0] == Tag(m)[0] ==> l == m
  {
  }

  /** `lang.toUpperCase()`: the tag written in upper case. */
  function Upper(l: Language): (u: string)
    ensures |u| == |Tag(l)|
    ensures forall i :: 0 <= i < |u| ==> u[i] as int == Tag(l)[i] as int - 32
  {
    match l
    case Html => "HTML"
    case Css => "CSS"
    case Js => "JS"
  }

  predicate IsDigit(c: char) { '0' <= c <= '9' }

  /** The decimal numeral of `n`, as JavaScript's template literal prints
      an integral number. */
  function Decimal(n: nat): (s: string)
    ensures |s| > 0
    ensures forall i :: 0 <= i < |s| ==> IsDigit(s[i])
    ensures |s| > 1 ==> s[0] != '0'
    decreases n
  {
    var d := ['0' + (n % 10) as char];
    if n < 10 then d else Decimal(n / 10) + d
  }

  /** Reading a numeral back: the value of a string of digits. */
  function DigitsValue(s: string): nat
    requires forall i :: 0 <= i < |s| ==> IsDigit(s[i])
  {
    if s == [] then 0
    else
      assert IsDigit(s[|s| - 1]);
      10 * DigitsValue(s[..|s| - 1]) + (s[|s| - 1] as int - '0' as int) as nat
  }

  /** Reading the numeral of `n` back gives `n`. */
  lemma {:induction false} DecimalRoundTrip(n: nat)
    ensures DigitsValue(Decimal(n)) == n
    decreases n
  {
    var s := Decimal(n);
    if n >= 10 {
      DecimalRoundTrip(n / 10);
      assert s[..|s| - 1] == Decimal(n / 10);
    }
  }

  /** Different instants print as different numerals. */
  lemma DecimalInjective(m: nat, n: nat)
    ensures Decimal(m) == Decimal(n) ==> m == n
  {
    DecimalRoundTrip(m);
    DecimalRoundTrip(n);
  }
}
