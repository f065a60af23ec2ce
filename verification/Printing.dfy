/** What field values are printed as, and when two of them are printed apart. */
module Printing {
  import opened Text
  import opened Model

  /** The text a value is printed as: a string is itself, a missing value is a string without characters. */
  predicate PrintsAs(v: Option<FeatureValue>, s: string) {
    match v
    case None => s == ""
    case Some(w) =>
      match w.kind
      case IntField => IsNumeral(s, w.num)
      case FloatField => s == w.float
      case BoolField => s == if w.flag then "true" else "false"
      case _ => s == w.str
  }

  /** Every value is printed as one text. */
  lemma ShowPrints(v: FeatureValue, s: string)
    ensures PrintsAs(Some(v), s) <==> s == Show(v)
  {
    NumeralIsDecimal(s, v.num);
  }

  predicate IsText(v: FeatureValue) {
    v.kind == StringField || v.kind == Unset
  }

  /**
   Two printed values of one kind differ exactly if their contents do, an integer and a flag always do, and
   against a missing value only an empty text does not.
   */
  lemma PrintedApart(v: FeatureValue, w: Option<FeatureValue>, s: string, t: string)
    requires PrintsAs(Some(v), s) && PrintsAs(w, t)
    ensures w.Some? && IsText(v) && IsText(w.value) ==> (s != t <==> v.str != w.value.str)
    ensures w.Some? && v.kind == IntField && w.value.kind == IntField ==> (s != t <==> v.num != w.value.num)
    ensures w.Some? && v.kind == BoolField && w.value.kind == BoolField ==> (s != t <==> v.flag != w.value.flag)
    ensures w.Some? && v.kind == FloatField && w.value.kind == FloatField ==> (s != t <==> v.float != w.value.float)
    ensures w.Some? && v.kind == IntField && w.value.kind == BoolField ==> s != t
    ensures w.Some? && v.kind == BoolField && w.value.kind == IntField ==> s != t
    ensures w.None? && IsText(v) ==> (s != t <==> v.str != "")
    ensures w.None? && (v.kind == IntField || v.kind == BoolField) ==> s != t
  {
    hide IsNumeral;
    ShowPrints(v, s);
    NumeralNotEmpty(v.num);
    if w.Some? {
      ShowPrints(w.value, t);
      NumeralNotEmpty(w.value.num);
      if v.kind == IntField && w.value.kind == IntField && s == t {
        OneNumber(v.num, w.value.num);
      }
    }
  }

  /** A numeral starts with a digit or a sign. */
  lemma NumeralNotEmpty(n: int)
    ensures DecimalInt(n) != "" && (DecimalInt(n)[0] == '-' || IsDigit(DecimalInt(n)[0]))
  {
    DecimalIsDigits(if n < 0 then -n else n);
  }

  lemma OneNumber(m: int, n: int)
    requires DecimalInt(m) == DecimalInt(n)
    ensures m == n
  {
    hide Decimal;
    NumeralIsDecimal(DecimalInt(m), m);
    NumeralIsDecimal(DecimalInt(n), n);
  }
}
