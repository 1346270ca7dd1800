/** File names of index snapshots: `{partition}.idx` or `{partition}_{model}.idx`. */
module SnapshotNames {
  import opened Base
  import opened Text

  type I32 = i: int | MIN_I32 <= i <= MAX_I32

  const DEFAULT_MODEL := "default"
  const SUFFIX := ".idx"

  function DigitChar(d: nat): char
    requires d < 10
  {
    '0' + d as char
  }

  predicate IsDigit(c: char) {
    '0' <= c <= '9'
  }

  function Decimal(n: nat): (s: string)
    ensures s != [] && forall i :: 0 <= i < |s| ==> IsDigit(s[i])
  {
    if n < 10 then [DigitChar(n)] else Decimal(n / 10) + [DigitChar(n % 10)]
  }

  function FormatI32(p: I32): string {
    if p < 0 then "-" + Decimal(Negate(p)) else Decimal(p)
  }

  function Negate(v: int): int {
    -v
  }

  /** The value of a non-empty string of digits. */
  function ParseDigits(s: string): Option<nat> {
    if s == [] || !IsDigit(s[|s| - 1]) then None
    else
      var last := (s[|s| - 1] - '0') as nat;
      if |s| == 1 then Some(last)
      else
        match ParseDigits(s[..|s| - 1])
        case None => None
        case Some(front) => Some(front * 10 + last)
  }

  function InRange(v: int): Option<I32> {
    if MIN_I32 <= v <= MAX_I32 then Some(v) else None
  }

  /** `i32::from_str`: an optional sign, then digits, within range. */
  function ParseI32(s: string): Option<I32> {
    if s == [] then None
    else if s[0] == '-' then
      (match ParseDigits(s[1..])
       case None => None
       case Some(v) => InRange(Negate(v)))
    else
      match ParseDigits(if s[0] == '+' then s[1..] else s)
      case None => None
      case Some(v) => InRange(v)
  }

  function StripSuffix(s: string, suffix: string): Option<string> {
    if |suffix| <= |s| && s[|s| - |suffix|..] == suffix then Some(s[..|s| - |suffix|]) else None
  }

  function Filename(partition: I32, model: string): string {
    if model == DEFAULT_MODEL then FormatI32(partition) + SUFFIX
    else FormatI32(partition) + "_" + model + SUFFIX
  }

  function ParseFilename(name: string): Option<(I32, string)> {
    match StripSuffix(name, SUFFIX)
    case None => None
    case Some(stem) =>
      match Find(stem, '_')
      case Some(sep) =>
        (match ParseI32(stem[..sep])
         case None => None
         case Some(partition) =>
           var model := stem[sep + 1..];
           if model == "" then None else Some((partition, model)))
      case None =>
        match ParseI32(stem)
        case None => None
        case Some(partition) => Some((partition, DEFAULT_MODEL))
  }

  lemma {:induction false} DecimalRoundTrip(n: nat)
    ensures ParseDigits(Decimal(n)) == Some(n)
  {
    if n >= 10 {
      DecimalRoundTrip(n / 10);
      assert Decimal(n)[..|Decimal(n)| - 1] == Decimal(n / 10);
    }
  }

  lemma {:induction false} FormatRoundTrip(p: I32)
    ensures ParseI32(FormatI32(p)) == Some(p)
    ensures '_' !in FormatI32(p)
  {
    if p < 0 {
      DecimalRoundTrip(Negate(p));
      assert FormatI32(p)[1..] == Decimal(Negate(p));
    } else {
      DecimalRoundTrip(p);
      assert IsDigit(Decimal(p)[0]);
    }
  }

  lemma {:induction false} StripAppended(stem: string)
    ensures StripSuffix(stem + SUFFIX, SUFFIX) == Some(stem)
  {
  }

  /** A snapshot file is found again under its own partition and model exactly when the model has a name. */
  lemma {:induction false} FilenameRoundTrip(partition: I32, model: string)
    ensures ParseFilename(Filename(partition, model)) == if model == "" then None else Some((partition, model))
  {
    var front := FormatI32(partition);
    FormatRoundTrip(partition);
    if model == DEFAULT_MODEL {
      StripAppended(front);
      assert Find(front, '_') == None;
    } else {
      var stem := front + "_" + model;
      StripAppended(stem);
      FirstSeparator(front, '_', model);
      assert stem == front + ['_'] + model;
      assert stem[..|front|] == front && stem[|front| + 1..] == model;
    }
  }

  /** The names as they stand in a directory. */
  lemma {:induction false} FilenameExamples()
    ensures Filename(12, "default") == "12.idx"
    ensures Filename(-7, "mini") == "-7_mini.idx"
  {
    assert Decimal(12) == Decimal(1) + ['2'] == "12";
    assert Decimal(7) == "7";
  }

  lemma {:induction false} UnnamedStem(p: I32)
    ensures StripSuffix(Filename(p, ""), SUFFIX) == Some(FormatI32(p) + "_")
  {
    var stem := FormatI32(p) + "_";
    StripAppended(stem);
    assert FormatI32(p) + "_" + "" + SUFFIX == stem + SUFFIX;
  }

  lemma {:induction false} SameFront(a: string, b: string)
    requires a + "_" == b + "_"
    ensures a == b
  {
    assert |a + "_"| == |a| + 1 && |b + "_"| == |b| + 1;
    assert (a + "_")[..|a|] == a && (b + "_")[..|b|] == b;
  }

  /** No two indexes share a snapshot file. */
  lemma {:induction false} FilenameInjective(p: I32, m: string, p': I32, m': string)
    requires Filename(p, m) == Filename(p', m')
    ensures p == p' && m == m'
  {
    hide Filename, ParseFilename, StripSuffix, FormatI32, ParseI32;
    FilenameRoundTrip(p, m);
    FilenameRoundTrip(p', m');
    if m == "" {
      UnnamedStem(p);
      UnnamedStem(p');
      SameFront(FormatI32(p), FormatI32(p'));
      FormatRoundTrip(p);
      FormatRoundTrip(p');
    }
  }

  // ---- Names as path components ----

  /** The name denotes one entry of a directory. */
  predicate OneComponent(name: string) {
    '/' !in name && '\0' !in name && name != "" && name != "." && name != ".."
  }

  lemma {:induction false} FormatIsPlain(p: I32, c: char)
    requires c in FormatI32(p)
    ensures c == '-' || IsDigit(c)
  {
    if p < 0 {
      assert FormatI32(p) == "-" + Decimal(Negate(p));
    }
  }

  /** A snapshot can be written in its topic's directory exactly when the model name has no slash and no NUL. */
  lemma {:induction false} FilenameIsComponentIff(partition: I32, model: string)
    ensures OneComponent(Filename(partition, model)) <==> '/' !in model && '\0' !in model
  {
    var name, front := Filename(partition, model), FormatI32(partition);
    assert |front| >= 1 && |name| >= 5;
    forall c | c in front ensures c != '/' && c != '\0' {
      FormatIsPlain(partition, c);
    }
    if model == DEFAULT_MODEL {
      assert name == front + SUFFIX;
    } else {
      assert name == front + "_" + model + SUFFIX;
      assert forall c :: c in name <==> c in front || c in "_" || c in model || c in SUFFIX;
    }
  }

  /** `is_valid_topic_name`, which topics pass before they are created; what is alphanumeric is a parameter. */
  predicate IsValidTopicName(alphanumeric: char -> bool, name: string) {
    && name != "" && name != "." && name != ".." && |name| <= 249
    && !("__" <= name)
    && forall i :: 0 <= i < |name| ==> alphanumeric(name[i]) || name[i] == '.' || name[i] == '-' || name[i] == '_'
  }

  /** So every topic has a directory of its own. */
  lemma {:induction false} TopicIsComponent(alphanumeric: char -> bool, name: string)
    requires !alphanumeric('/') && !alphanumeric('\0') && IsValidTopicName(alphanumeric, name)
    ensures OneComponent(name)
  {
  }
}
