/** The model catalog of script.js and how a `<select>` option value picks an entry of it.
    The options are written as `<option value="${index}">`, so a select's value is the decimal
    text of a catalog position, and `models[value]` finds an entry only for the canonical
    decimal spelling of a position that exists. */
module Catalog {
  import opened Wrappers
  import opened Providers

  /** One catalog entry: the provider (the script stores its registry key, and every provider's
      key is registered, see `Providers.LookupIdentifier`), the model identifier sent to that
      provider, and the label shown in the select. */
  datatype ModelDescriptor = ModelDescriptor(source: Source, model: string, name: string)

  /** The sixteen entries, in the order that gives their option values 0..15. */
  const Models: seq<ModelDescriptor> := [
    ModelDescriptor(OpenAI, "gpt-4o-mini", "OpenAI: GPT 4o Mini ($0.15)"),
    ModelDescriptor(OpenAI, "gpt-4o-audio-preview", "OpenAI: GPT 4o Audio Preview ($2.5)"),
    ModelDescriptor(OpenAI, "gpt-4o", "OpenAI: GPT 4o ($2.5)"),
    ModelDescriptor(OpenAI, "chatgpt-4o-latest", "OpenAI: ChatGPT 4o ($5)"),
    ModelDescriptor(Anthropic, "claude-3-haiku-20240307", "Anthropic: Claude 3 Haiku ($0.25)"),
    ModelDescriptor(Anthropic, "claude-3-5-haiku-20241022", "Anthropic: Claude 3.5 Haiku ($1)"),
    ModelDescriptor(Anthropic, "claude-3-5-sonnet-20241022", "Anthropic: Claude 3.5 Sonnet v2 ($3)"),
    ModelDescriptor(Gemini, "gemini-1.5-flash-8b", "Google: Gemini 1.5 Flash 8b ($0.04)"),
    ModelDescriptor(Gemini, "gemini-1.5-flash-002", "Google: Gemini 1.5 Flash 002 ($0.075)"),
    ModelDescriptor(Gemini, "gemini-1.5-pro-002", "Google: Gemini 1.5 Pro 002 ($1.25)"),
    ModelDescriptor(Cerebras, "llama3.1-70b", "Cerebras: Llama 3.1 70b ($0)"),
    ModelDescriptor(Cerebras, "llama3.1-8b", "Cerebras: Llama 3.1 8b ($0)"),
    ModelDescriptor(Groq, "llama-3.2-90b-vision-preview", "Groq: Llama 3.2 90b ($0)"),
    ModelDescriptor(Groq, "llama-3.2-11b-vision-preview", "Groq: Llama 3.2 11b ($0)"),
    ModelDescriptor(Groq, "gemma2-9b-it", "Groq: Gemma 2 9b ($0)"),
    ModelDescriptor(Groq, "mixtral-8x7b-32768", "Groq: Mixtral 8x7b ($0)")
  ]

  predicate IsDigit(c: char) { '0' <= c <= '9' }

  predicate AllDigits(s: string) { forall i :: 0 <= i < |s| ==> IsDigit(s[i]) }

  function DigitChar(d: nat): (c: char)
    requires d < 10
    ensures IsDigit(c) && c as int - '0' as int == d
  {
    ('0' as int + d) as char
  }

  /** The text of `${index}` for a non-negative integer: decimal, no leading zeros. */
  function Decimal(n: nat): (s: string)
    ensures |s| > 0 && AllDigits(s)
    ensures s[0] == '0' ==> n == 0
  {
    if n < 10 then [DigitChar(n)] else Decimal(n / 10) + [DigitChar(n % 10)]
  }

  /** The number a string of decimal digits denotes. */
  function ValueOf(s: string): nat
    requires AllDigits(s)
  {
    if |s| == 0 then 0 else ValueOf(s[..|s| - 1]) * 10 + (s[|s| - 1] as int - '0' as int)
  }

  /** A string that an array index property name can have: decimal digits with no leading zero. */
  predicate Canonical(s: string) {
    |s| > 0 && AllDigits(s) && (s[0] == '0' ==> |s| == 1)
  }

  /** The array position a property name denotes, if it denotes one: exactly the names that
      are the decimal text of a position, each denoting that position. */
  function ParseIndex(s: string): (r: Option<nat>)
    ensures r.Some? ==> Decimal(r.value) == s
    ensures forall n: nat :: Decimal(n) == s ==> r == Some(n)
  {
    DecimalsParse(s);
    if Canonical(s) then CanonicalPrints(s); Some(ValueOf(s)) else None
  }

  /** Every decimal text is canonical and denotes its number. */
  lemma DecimalsParse(s: string)
    ensures forall n: nat :: Decimal(n) == s ==> Canonical(s) && ValueOf(s) == n
  {
    forall n: nat | Decimal(n) == s
      ensures Canonical(s) && ValueOf(s) == n
    {
      DecimalParses(n);
    }
  }

  /** Property lookup `models[value]` on an array `models`, as far as it yields a catalog entry:
      the entry at the position the property name spells, and `None` for every other name.
      `None` stands for every result that is not an entry: `undefined`, and for inherited names
      such as `length`, `map` or `__proto__` a number, function or prototype object. None of
      them has a `source` that names a provider, so the handler throws by script.js:102 either
      way. */
  function Select(models: seq<ModelDescriptor>, value: string): (r: Option<ModelDescriptor>)
    ensures r.Some? ==> r.value in models
  {
    match ParseIndex(value)
    case Some(i) => if i < |models| then Some(models[i]) else None
    case None => None
  }

  /** `models[value]` (script.js:99) on the page's catalog. */
  function ModelForValue(value: string): (r: Option<ModelDescriptor>)
    ensures r.Some? ==> r.value in Models
  {
    Select(Models, value)
  }

  lemma {:induction false} DecimalParses(n: nat)
    ensures Canonical(Decimal(n)) && ValueOf(Decimal(n)) == n
  {
    if n >= 10 {
      DecimalParses(n / 10);
      var s := Decimal(n);
      assert s[..|s| - 1] == Decimal(n / 10);
    }
  }

  lemma {:induction false} CanonicalLarge(s: string)
    requires Canonical(s) && |s| > 1
    ensures ValueOf(s) >= 10
  {
    var p := s[..|s| - 1];
    assert p[0] == s[0];
    if |p| > 1 {
      CanonicalLarge(p);
    } else {
      assert ValueOf(p) == ValueOf(p[..0]) * 10 + (p[0] as int - '0' as int);
    }
  }

  lemma DigitSplit(q: nat, d: int)
    requires 0 <= d < 10
    ensures (q * 10 + d) / 10 == q && (q * 10 + d) % 10 == d
  {
  }

  lemma {:induction false} CanonicalPrints(s: string)
    requires Canonical(s)
    ensures Decimal(ValueOf(s)) == s
  {
    if |s| > 1 {
      var p := s[..|s| - 1];
      var d := s[|s| - 1] as int - '0' as int;
      assert p[0] == s[0];
      CanonicalLarge(s);
      CanonicalPrints(p);
      DigitSplit(ValueOf(p), d);
      assert DigitChar(d) == s[|s| - 1];
      assert s == p + [s[|s| - 1]];
    } else {
      assert s[..0] == [];
    }
  }

  /** The option written for position `i` selects exactly entry `i`. */
  lemma OptionValueSelects(i: nat)
    requires i < |Models|
    ensures ModelForValue(Decimal(i)) == Some(Models[i])
  {
    DecimalParses(i);
  }

  /** Conversely, a value selects an entry only if it is the option value written for that
      entry's position: no other spelling ("03", " 3", "3.0", "16", "") finds a model. */
  lemma ValueSelectsOnlyOptions(value: string)
    requires ModelForValue(value).Some?
    ensures exists i :: 0 <= i < |Models| && value == Decimal(i) && ModelForValue(value) == Some(Models[i])
  {
    var i := ParseIndex(value).value;
    CanonicalPrints(value);
    assert value == Decimal(i);
  }

  /** Model identifiers are distinct, so a position is recovered from the model it sends. */
  lemma CatalogModelsDistinct()
    ensures forall i, j :: 0 <= i < j < |Models| ==> Models[i].model != Models[j].model
  {
  }
}
