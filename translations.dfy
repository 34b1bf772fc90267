/** The page-text and price lookup of translations.js: a nested table of
    strings walked along a dotted key, and a per-currency price table. The
    stored language and currency (sessionStorage) are parameters, the empty
    string standing for nothing stored. Only a representative part of the
    string table is modelled; the walk itself works on any table. */
module Translations {
  import opened Common
  import opened Text

  /** The JavaScript values the tables hold and a walk can reach. */
  datatype Value =
    | Undefined
    | Str(s: string)
    | Num(n: int)
    | Obj(fields: map<string, Value>)

  /** JavaScript truthiness: `undefined`, "" and 0 are falsy. */
  predicate Truthy(v: Value) {
    match v
    case Undefined => false
    case Str(s) => s != ""
    case Num(n) => n != 0
    case Obj(_) => true
  }

  /** `k` as an array index of a string of length `len`: a canonical
      decimal numeral below `len`. */
  function IndexKey(k: string, len: nat): (r: Option<nat>)
    ensures r.Some? ==> r.value < len && k == Decimal(r.value)
  {
    if |k| > 0 && AllDigits(k) && (|k| == 1 || k[0] != '0') && DigitsValue(k) < len then
      CanonicalNumeral(k);
      Some(DigitsValue(k))
    else None
  }

  /** A digit string with no leading zero is the numeral of its value. */
  lemma {:induction false} CanonicalNumeral(k: string)
    requires |k| > 0 && AllDigits(k) && (|k| == 1 || k[0] != '0')
    ensures k == Decimal(DigitsValue(k))
    decreases |k|
  {
    if |k| > 1 {
      var front := k[..|k| - 1];
      assert front[0] == k[0];
      CanonicalNumeral(front);
      var n := DigitsValue(k);
      assert n / 10 == DigitsValue(front) && n % 10 == DigitValue(k[|k| - 1]);
      assert DigitsValue(front) >= 1 by {
        FirstDigitBound(front);
      }
      assert k == front + [k[|k| - 1]];
    }
  }

  /** A numeral whose first digit is not 0 has a positive value. */
  lemma {:induction false} FirstDigitBound(k: string)
    requires |k| > 0 && AllDigits(k) && k[0] != '0'
    ensures DigitsValue(k) >= 1
    decreases |k|
  {
    if |k| > 1 {
      FirstDigitBound(k[..|k| - 1]);
    }
  }

  /** `v[k]` for a value that is not `undefined`: an own property of an
      object, the length (in UTF-16 code units) or a character of a string,
      and `undefined` otherwise. */
  function Get(v: Value, k: string): (r: Value)
    requires !v.Undefined?
    ensures v.Obj? ==> r == (if k in v.fields then v.fields[k] else Undefined)
    ensures v.Str? && k == "length" ==> r == Num(Utf16Length(v.s))
    ensures v.Num? ==> r == Undefined
  {
    match v
    case Obj(m) => if k in m then m[k] else Undefined
    case Str(s) =>
      if k == "length" then Num(Utf16Length(s))
      else (match IndexKey(k, |s|)
            case Some(i) => Str([s[i]])
            case None => Undefined)
    case Num(_) => Undefined
  }

  /** How a walk ends. */
  datatype Walked = Reached(value: Value) | Fallback | TypeError

  /** The walk of `translate`: reading a property of `undefined` throws; a
      falsy value at any step ends the walk with the key itself. */
  function Walk(v: Value, keys: seq<string>): (r: Walked)
    ensures r.Reached? && |keys| > 0 ==> Truthy(r.value)
    ensures r == TypeError ==> |keys| > 0 && v.Undefined?
    decreases |keys|
  {
    if |keys| == 0 then Reached(v)
    else if v.Undefined? then TypeError
    else
      var next := Get(v, keys[0]);
      if !Truthy(next) then Fallback else Walk(next, keys[1..])
  }

  /** A walk that reaches a value has found an own property at every step. */
  lemma WalkFollowsPath(m: map<string, Value>, keys: seq<string>)
    requires |keys| > 0 && Walk(Obj(m), keys).Reached?
    ensures keys[0] in m && Truthy(m[keys[0]])
    ensures Walk(Obj(m), keys) == Walk(m[keys[0]], keys[1..])
  {
  }

  /** Walking along `a + b` is walking along `a`, then along `b` from there. */
  lemma {:induction false} WalkConcat(v: Value, a: seq<string>, b: seq<string>)
    ensures Walk(v, a + b) == match Walk(v, a)
      case Reached(w) => Walk(w, b)
      case Fallback => Fallback
      case TypeError => TypeError
    decreases |a|
  {
    if |a| > 0 && !v.Undefined? {
      assert (a + b)[0] == a[0] && (a + b)[1..] == a[1..] + b;
      var next := Get(v, a[0]);
      if Truthy(next) {
        WalkConcat(next, a[1..], b);
      }
    } else if |a| == 0 {
      assert a + b == b;
    }
  }

  /** From a truthy value the walk never throws. */
  lemma TruthyWalkNeverThrows(v: Value, keys: seq<string>)
    requires Truthy(v)
    ensures Walk(v, keys) != TypeError
  {
  }

  /** getCurrentLanguage. */
  function CurrentLanguage(stored: string): (r: string)
    ensures r != ""
    ensures stored == "" ==> r == "en"
    ensures stored != "" ==> r == stored
  {
    if stored == "" then "en" else stored
  }

  /** getCurrentCurrency. */
  function CurrentCurrency(stored: string): (r: string)
    ensures r != ""
    ensures stored == "" ==> r == "EUR"
    ensures stored != "" ==> r == stored
  {
    if stored == "" then "EUR" else stored
  }

  /** Storing the language in use changes nothing, and with nothing stored
      every key is walked exactly as in the English table. */
  lemma DefaultLanguageIsEnglish(table: map<string, Value>, stored: string, keys: seq<string>)
    ensures CurrentLanguage(CurrentLanguage(stored)) == CurrentLanguage(stored)
    ensures Walk(TableFor(table, CurrentLanguage("")), keys) == Walk(TableFor(table, "en"), keys)
  {
  }

  /** `translations[lang]`. */
  function TableFor(table: map<string, Value>, lang: string): Value {
    if lang in table then table[lang] else Undefined
  }

  /** translate: the key split on '.' is walked from the stored language's
      table (English when none is stored); the value reached is returned,
      the key itself when a step is missing or falsy, and None stands for
      the TypeError an unknown language raises. */
  method Translate(table: map<string, Value>, storedLanguage: string, key: string) returns (r: Option<Value>)
    ensures var lang := CurrentLanguage(storedLanguage);
      match Walk(TableFor(table, lang), Split(key, '.'))
      case Reached(v) => r == Some(v)
      case Fallback => r == Some(Str(key))
      case TypeError => r.None?
    ensures r.None? <==> TableFor(table, CurrentLanguage(storedLanguage)).Undefined?
  {
    var lang := CurrentLanguage(storedLanguage);
    var keys := Split(key, '.');
    var value := TableFor(table, lang);
    var i := 0;
    while i < |keys|
      invariant 0 <= i <= |keys|
      invariant Walk(TableFor(table, lang), keys) == Walk(value, keys[i..])
      invariant i > 0 ==> Truthy(value)
      invariant i == 0 ==> value == TableFor(table, lang)
    {
      if value.Undefined? {
        return None;
      }
      assert keys[i..][1..] == keys[i + 1..];
      value := Get(value, keys[i]);
      if !Truthy(value) {
        return Some(Str(key));
      }
      i := i + 1;
    }
    assert keys[i..] == [];
    r := Some(value);
  }

  /** The price table. */
  function Prices(): map<string, Value> {
    map[
      "EUR" := Obj(map["days15" := Num(5), "days30" := Num(8), "days90" := Num(11),
                       "lifetime" := Num(50), "symbol" := Str("\U{20AC}")]),
      "RUB" := Obj(map["days15" := Num(500), "days30" := Num(750), "days90" := Num(1100),
                       "lifetime" := Num(4699), "symbol" := Str("\U{20BD}")])
    ]
  }

  /** getPrice: `prices[currency][plan]`; an unknown currency throws (None),
      an unknown plan is `undefined`. */
  function PriceOf(storedCurrency: string, plan: string): (r: Option<Value>)
    ensures CurrentCurrency(storedCurrency) !in Prices() <==> r.None?
    ensures r.Some? && plan !in Prices()[CurrentCurrency(storedCurrency)].fields ==> r == Some(Undefined)
  {
    var c := CurrentCurrency(storedCurrency);
    if c in Prices() then Some(Get(Prices()[c], plan)) else None
  }

  /** getCurrencySymbol: `prices[currency].symbol`. */
  function CurrencySymbol(storedCurrency: string): (r: Option<Value>)
    ensures CurrentCurrency(storedCurrency) !in Prices() <==> r.None?
    ensures r.Some? ==> r.value.Str? && |r.value.s| == 1
  {
    var c := CurrentCurrency(storedCurrency);
    if c in Prices() then Some(Get(Prices()[c], "symbol")) else None
  }

  /** With nothing stored every price and the symbol are the euro's, and
      storing the currency in use changes nothing. */
  lemma DefaultCurrencyIsEuro(stored: string, plan: string)
    ensures PriceOf("", plan) == PriceOf("EUR", plan)
    ensures CurrencySymbol("") == CurrencySymbol("EUR")
    ensures PriceOf(CurrentCurrency(stored), plan) == PriceOf(stored, plan)
  {
  }

  /** The listed prices, and the euro as the default currency. */
  lemma PriceExamples()
    ensures PriceOf("", "days30") == Some(Num(8))
    ensures PriceOf("EUR", "days30") == Some(Num(8))
    ensures PriceOf("RUB", "lifetime") == Some(Num(4699))
    ensures CurrencySymbol("") == Some(Str("\U{20AC}"))
    ensures CurrencySymbol("RUB") == Some(Str("\U{20BD}"))
    ensures PriceOf("USD", "days30").None?
    ensures PriceOf("EUR", "days7") == Some(Undefined)
  {
  }

  /** A representative part of the string table. */
  function Strings(): map<string, Value> {
    map[
      "en" := Obj(map[
        "nav" := Obj(map["features" := Str("Features"), "bypasses" := Str("Bypasses"), "purchase" := Str("Purchase")]),
        "purchase" := Obj(map["plans" := Obj(map["days15" := Str("15 Days"), "lifetime" := Str("Lifetime")])])]),
      "ru" := Obj(map[
        "nav" := Obj(map["purchase" := Str("\U{041A}\U{0443}\U{043F}\U{0438}\U{0442}\U{044C}")]),
        "purchase" := Obj(map["plans" := Obj(map["lifetime" := Str("\U{041D}\U{0430}\U{0432}\U{0441}\U{0435}\U{0433}\U{0434}\U{0430}")])])])
    ]
  }

  /** A full path gives its string, a prefix path the sub-object, a missing
      step the key itself. */
  lemma WalkExamples()
    ensures Walk(TableFor(Strings(), CurrentLanguage("")), ["nav", "features"]) == Reached(Str("Features"))
    ensures Walk(TableFor(Strings(), "en"), ["nav"]).Reached? && Walk(TableFor(Strings(), "en"), ["nav"]).value.Obj?
    ensures Walk(TableFor(Strings(), "en"), ["nav", "pricing"]) == Fallback
    ensures Walk(TableFor(Strings(), "ru"), ["nav", "features"]) == Fallback
    ensures Walk(TableFor(Strings(), "de"), ["nav"]) == TypeError
  {
  }
}
