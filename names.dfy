/** List-name normalisation: lodash's `_.capitalize`, restricted to ASCII case mapping.
    `_.capitalize(s)` is `upperFirst(toLower(s))`: every character is lower-cased and then
    the first one is upper-cased. Characters outside 'A'..'Z' and 'a'..'z' are left alone. */
module Names {

  predicate IsUpper(c: char) { 'A' <= c <= 'Z' }

  predicate IsLower(c: char) { 'a' <= c <= 'z' }

  function ToLower(c: char): (r: char) {
    if IsUpper(c) then (c as int + 32) as char else c
  }

  function ToUpper(c: char): (r: char) {
    if IsLower(c) then (c as int - 32) as char else c
  }

  /** `String.prototype.toLowerCase`, over ASCII. */
  function LowerAll(s: string): (r: string)
    ensures |r| == |s|
    ensures forall i :: 0 <= i < |s| ==> r[i] == ToLower(s[i])
  {
    if s == [] then [] else [ToLower(s[0])] + LowerAll(s[1..])
  }

  /** lodash `upperFirst`. */
  function UpperFirst(s: string): (r: string) {
    if s == [] then [] else [ToUpper(s[0])] + s[1..]
  }

  /** lodash `capitalize`: the first character upper-cased, every other one lower-cased. */
  function Capitalize(s: string): (r: string)
    ensures |r| == |s|
    ensures |s| > 0 ==> r[0] == ToUpper(s[0])
    ensures forall i :: 0 < i < |s| ==> r[i] == ToLower(s[i])
  {
    UpperFirst(LowerAll(s))
  }

  /** Two characters are the same letter up to ASCII case. */
  predicate SameLetter(x: char, y: char) {
    || x == y
    || (IsUpper(x) && y as int == x as int + 32)
    || (IsLower(x) && y as int == x as int - 32)
  }

  /** Two strings spell the same thing up to ASCII case. */
  predicate EqualIgnoringCase(a: string, b: string) {
    |a| == |b| && forall i :: 0 <= i < |a| ==> SameLetter(a[i], b[i])
  }

  lemma FoldingIdentifiesSameLetters(x: char, y: char)
    ensures ToLower(x) == ToLower(y) <==> SameLetter(x, y)
    ensures ToUpper(x) == ToUpper(y) <==> SameLetter(x, y)
  {
  }

  /** Normalising an already normalised name changes nothing. */
  lemma CapitalizeIdempotent(s: string)
    ensures Capitalize(Capitalize(s)) == Capitalize(s)
  {
    var c := Capitalize(s);
    var cc := Capitalize(c);
    forall i | 0 <= i < |s| ensures cc[i] == c[i] {
      if i == 0 {
        assert ToUpper(ToUpper(s[0])) == ToUpper(s[0]);
      } else {
        assert ToLower(ToLower(s[i])) == ToLower(s[i]);
      }
    }
  }

  /** Two names normalise to the same name exactly when they differ only in letter case. */
  lemma CapitalizeCaseInsensitive(a: string, b: string)
    ensures Capitalize(a) == Capitalize(b) <==> EqualIgnoringCase(a, b)
  {
    var ca, cb := Capitalize(a), Capitalize(b);
    if ca == cb {
      forall i | 0 <= i < |a| ensures SameLetter(a[i], b[i]) {
        FoldingIdentifiesSameLetters(a[i], b[i]);
        assert ca[i] == cb[i];
      }
    }
    if EqualIgnoringCase(a, b) {
      forall i | 0 <= i < |a| ensures ca[i] == cb[i] {
        FoldingIdentifiesSameLetters(a[i], b[i]);
      }
    }
  }
}
