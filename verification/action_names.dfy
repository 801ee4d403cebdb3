/**
 * The per-action prediction columns `Action<N>_Prediction` that the back end attaches
 * to affected instances, and the ways the front end recognises and takes them apart
 * (the regular expressions `^Action\d+_Prediction$`, `^Action(\d+)_Prediction$` and
 * `\d+`; `\d` is an ASCII digit).
 */
module ActionNames {
  import opened Wrappers
  import Decimal

  const ActionWord := "Action"
  const PredictionSuffix := "_Prediction"

  /** The name made of `Action`, the text `d` and `_Prediction`. */
  function Spelled(d: string): string {
    ActionWord + d + PredictionSuffix
  }

  /** A name spelled around `d` has `d` between its fixed parts, and every long enough name with both parts is spelled around its middle. */
  lemma SpelledParts(s: string)
    ensures forall d :: s == Spelled(d) ==>
      |s| == |ActionWord| + |d| + |PredictionSuffix| && s[..|ActionWord|] == ActionWord &&
      s[|s| - |PredictionSuffix|..] == PredictionSuffix && s[|ActionWord|..|s| - |PredictionSuffix|] == d
    ensures (|s| >= |ActionWord| + |PredictionSuffix| && s[..|ActionWord|] == ActionWord &&
             s[|s| - |PredictionSuffix|..] == PredictionSuffix) ==>
      s == Spelled(s[|ActionWord|..|s| - |PredictionSuffix|])
  {
    forall d | s == Spelled(d)
      ensures s[..|ActionWord|] == ActionWord && s[|s| - |PredictionSuffix|..] == PredictionSuffix
      ensures s[|ActionWord|..|s| - |PredictionSuffix|] == d
    {
    }
    if |s| >= |ActionWord| + |PredictionSuffix| && s[..|ActionWord|] == ActionWord &&
       s[|s| - |PredictionSuffix|..] == PredictionSuffix {
      var d := s[|ActionWord|..|s| - |PredictionSuffix|];
      assert s == s[..|ActionWord|] + d + s[|s| - |PredictionSuffix|..];
    }
  }

  /** `/^Action\d+_Prediction$/.test(s)`: `Action`, one or more digits, `_Prediction`, and nothing else. */
  function IsActionPrediction(s: string): (b: bool)
    ensures b <==> exists d :: s == Spelled(d) && |d| >= 1 && Decimal.AllDigits(d)
  {
    SpelledParts(s);
    |s| >= |ActionWord| + 1 + |PredictionSuffix| &&
    s[..|ActionWord|] == ActionWord &&
    s[|s| - |PredictionSuffix|..] == PredictionSuffix &&
    Decimal.AllDigits(s[|ActionWord|..|s| - |PredictionSuffix|])
  }

  /** The captured group of `^Action(\d+)_Prediction$`, as text (leading zeros kept). */
  function ActionDigits(s: string): (d: string)
    requires IsActionPrediction(s)
    ensures |d| >= 1 && Decimal.AllDigits(d)
    ensures s == ActionWord + d + PredictionSuffix
  {
    s[|ActionWord|..|s| - |PredictionSuffix|]
  }

  /** The prediction column of the action numbered `n`. */
  function PredictionKey(n: nat): string {
    ActionWord + Decimal.NatToStr(n) + PredictionSuffix
  }

  /** Every printed action number gives a matching column, whose captured group is that number. */
  lemma PredictionKeyMatches(n: nat)
    ensures IsActionPrediction(PredictionKey(n))
    ensures ActionDigits(PredictionKey(n)) == Decimal.NatToStr(n)
  {
    var k := PredictionKey(n);
    var d := Decimal.NatToStr(n);
    assert k[..|ActionWord|] == ActionWord;
    assert k[|k| - |PredictionSuffix|..] == PredictionSuffix;
    assert k[|ActionWord|..|k| - |PredictionSuffix|] == d;
  }

  /** `key.replace(/^Action(\d+)_Prediction$/, 'Action$1')`: the label shown in the action selector. */
  function DisplayName(key: string): (shown: string)
    ensures IsActionPrediction(key) ==> shown == ActionWord + ActionDigits(key)
    ensures !IsActionPrediction(key) ==> shown == key
  {
    if IsActionPrediction(key) then ActionWord + ActionDigits(key) else key
  }

  /** Distinct prediction columns get distinct labels, and the label of action n is "Action" and n. */
  lemma DisplayNameOfPrediction(a: string, b: string, n: nat)
    requires IsActionPrediction(a) && IsActionPrediction(b) && a != b
    ensures DisplayName(a) != DisplayName(b)
    ensures DisplayName(PredictionKey(n)) == ActionWord + Decimal.NatToStr(n)
  {
    PredictionKeyMatches(n);
  }

  /** The longest prefix of `s` made of digits. */
  function DigitPrefix(s: string): (d: string)
    ensures Decimal.AllDigits(d) && d <= s
    ensures |d| < |s| ==> !Decimal.IsDigit(s[|d|])
  {
    if s == [] || !Decimal.IsDigit(s[0]) then [] else [s[0]] + DigitPrefix(s[1..])
  }

  /** `d` is the run of digits that starts at the first digit of `s` and extends as far as it can. */
  predicate LeftmostDigitRun(s: string, d: string) {
    exists i :: 0 <= i < |s| && Decimal.IsDigit(s[i]) &&
                (forall j :: 0 <= j < i ==> !Decimal.IsDigit(s[j])) && d == DigitPrefix(s[i..])
  }

  /** A leading non-digit does not move the leftmost run. */
  lemma LeftmostDigitRunShift(s: string, d: string)
    requires s != [] && !Decimal.IsDigit(s[0])
    requires LeftmostDigitRun(s[1..], d)
    ensures LeftmostDigitRun(s, d)
  {
    var t := s[1..];
    var i :| 0 <= i < |t| && Decimal.IsDigit(t[i]) &&
             (forall j :: 0 <= j < i ==> !Decimal.IsDigit(t[j])) && d == DigitPrefix(t[i..]);
    assert t[i..] == s[i + 1..];
    forall j | 0 <= j < i + 1
      ensures !Decimal.IsDigit(s[j])
    {
      if j > 0 {
        assert s[j] == t[j - 1];
      }
    }
  }

  /** `s.match(/\d+/)?.[0]`: the leftmost maximal run of digits, `None` when `s` has no digit. */
  function FirstDigitRun(s: string): (r: Option<string>)
    ensures r.Some? ==> |r.value| >= 1 && Decimal.AllDigits(r.value)
    ensures r.None? <==> forall i :: 0 <= i < |s| ==> !Decimal.IsDigit(s[i])
    ensures r.Some? ==> LeftmostDigitRun(s, r.value)
  {
    if s == [] then None
    else if Decimal.IsDigit(s[0]) then
      assert s[0..] == s;
      Some(DigitPrefix(s))
    else
      var r := FirstDigitRun(s[1..]);
      if r.Some? then
        LeftmostDigitRunShift(s, r.value);
        r
      else r
  }

  /** `parseInt(key.match(/\d+/)?.[0] || '', 10)`; `None` is the `NaN` of a key without digits. */
  function ActionNumber(key: string): (r: Option<nat>)
    ensures r.None? <==> forall i :: 0 <= i < |key| ==> !Decimal.IsDigit(key[i])
  {
    match FirstDigitRun(key)
    case Some(d) => Some(Decimal.ParseDigits(d))
    case None => None
  }

  lemma {:induction false} DigitPrefixOfDigits(d: string, rest: string)
    requires Decimal.AllDigits(d)
    requires rest == [] || !Decimal.IsDigit(rest[0])
    ensures DigitPrefix(d + rest) == d
  {
    if d != [] {
      assert (d + rest)[1..] == d[1..] + rest;
      DigitPrefixOfDigits(d[1..], rest);
    } else {
      assert d + rest == rest;
    }
  }

  /** Letters only: the first digit run of `w + s` is that of `s`. */
  lemma {:induction false} FirstDigitRunSkips(w: string, s: string)
    requires forall i :: 0 <= i < |w| ==> !Decimal.IsDigit(w[i])
    ensures FirstDigitRun(w + s) == FirstDigitRun(s)
  {
    if w == [] {
      assert w + s == s;
    } else {
      assert (w + s)[1..] == w[1..] + s;
      FirstDigitRunSkips(w[1..], s);
    }
  }

  lemma ActionNumberOfDigits(d: string)
    requires |d| >= 1 && Decimal.AllDigits(d)
    ensures ActionNumber(ActionWord + (d + PredictionSuffix)) == Some(Decimal.ParseDigits(d))
  {
    var s := d + PredictionSuffix;
    ActionWordHasNoDigit();
    FirstDigitRunSkips(ActionWord, s);
    assert Decimal.IsDigit(s[0]) by {
      assert s[0] == d[0];
    }
    assert FirstDigitRun(s) == Some(DigitPrefix(s));
    assert !Decimal.IsDigit(PredictionSuffix[0]);
    DigitPrefixOfDigits(d, PredictionSuffix);
  }

  lemma ActionWordHasNoDigit()
    ensures forall i :: 0 <= i < |ActionWord| ==> !Decimal.IsDigit(ActionWord[i])
  {
  }

  /** The number read from a prediction column is the value of its captured digits. */
  lemma ActionNumberOfColumn(key: string)
    requires IsActionPrediction(key)
    ensures ActionNumber(key) == Some(Decimal.ParseDigits(ActionDigits(key)))
  {
    var d := ActionDigits(key);
    assert key == ActionWord + (d + PredictionSuffix);
    ActionNumberOfDigits(d);
  }

  /** The number read from the prediction column of action n is n. */
  lemma ActionNumberOfKey(n: nat)
    ensures ActionNumber(PredictionKey(n)) == Some(n)
  {
    var dn := Decimal.NatToStr(n);
    assert PredictionKey(n) == ActionWord + (dn + PredictionSuffix);
    ActionNumberOfDigits(dn);
    Decimal.ParseNatToStr(n);
  }

  /** The number read from a prediction column is the value of its captured digits; for action n it is n. */
  lemma ActionNumberOfPrediction(key: string, n: nat)
    requires IsActionPrediction(key)
    ensures ActionNumber(key) == Some(Decimal.ParseDigits(ActionDigits(key)))
    ensures ActionNumber(PredictionKey(n)) == Some(n)
  {
    ActionNumberOfColumn(key);
    ActionNumberOfKey(n);
  }

}
