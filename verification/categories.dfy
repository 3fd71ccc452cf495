/** The closed set of image categories the upload form offers, and the
    string forms under which the form uses them: the checkbox value and
    file-map key (`"Mammogram"`), and its lower-cased form used in the
    multipart part names (`"mammogram"`). */
module Categories {
  import opened Options

  datatype Category = Mammogram | Ultrasound | Biopsy

  /** The key of a category in the file map, which is also the value of its checkbox. */
  function Name(c: Category): string
  {
    match c
    case Mammogram => "Mammogram"
    case Ultrasound => "Ultrasound"
    case Biopsy => "Biopsy"
  }

  /** Reads a checkbox value back into a category; any other string is not a category. */
  function FromName(s: string): (r: Option<Category>)
    ensures r.Some? ==> Name(r.value) == s
    ensures r.None? ==> forall c: Category :: Name(c) != s
  {
    if s == "Mammogram" then Some(Mammogram)
    else if s == "Ultrasound" then Some(Ultrasound)
    else if s == "Biopsy" then Some(Biopsy)
    else None
  }

  lemma FromNameRoundTrip(c: Category)
    ensures FromName(Name(c)) == Some(c)
  {
  }

  /** `String.prototype.toLowerCase` restricted to one ASCII character. */
  function LowerChar(ch: char): (r: char)
    ensures 'A' <= ch <= 'Z' ==> r as int == ch as int + 32
    ensures !('A' <= ch <= 'Z') ==> r == ch
  {
    if 'A' <= ch <= 'Z' then (ch as int + 32) as char else ch
  }

  /** `String.prototype.toLowerCase` on ASCII text, character by character. */
  function Lower(s: string): (r: string)
    ensures |r| == |s|
    ensures forall i :: 0 <= i < |s| ==> r[i] == LowerChar(s[i])
  {
    seq(|s|, i requires 0 <= i < |s| => LowerChar(s[i]))
  }

  /** `type.toLowerCase()` as used for the part names. */
  function LowerName(c: Category): string
  {
    Lower(Name(c))
  }

  /** Lower-casing agrees with a literal that matches it character by character. */
  lemma LowerMatches(s: string, t: string)
    requires |s| == |t|
    requires forall i :: 0 <= i < |s| ==> LowerChar(s[i]) == t[i]
    ensures Lower(s) == t
  {
  }

  /** The lower-cased names, written out: singular, no plural `s`. */
  lemma LowerNameValues()
    ensures LowerName(Mammogram) == "mammogram"
    ensures LowerName(Ultrasound) == "ultrasound"
    ensures LowerName(Biopsy) == "biopsy"
  {
    LowerMatches("Mammogram", "mammogram");
    LowerMatches("Ultrasound", "ultrasound");
    LowerMatches("Biopsy", "biopsy");
  }

  /** The first letter of each lower-cased name. */
  function Initial(c: Category): char
  {
    match c
    case Mammogram => 'm'
    case Ultrasound => 'u'
    case Biopsy => 'b'
  }

  lemma LowerNameInitial(c: Category)
    ensures |LowerName(c)| > 0 && LowerName(c)[0] == Initial(c)
  {
    assert Name(c)[0] == match c case Mammogram => 'M' case Ultrasound => 'U' case Biopsy => 'B';
  }
}
