/**
 * The pure parts of the command-line front end traducir_pdf.py: building the list of target
 * languages reachable from English, picking one by code, and the progress-bar arithmetic.
 * The installed languages and packages come from Argos Translate; here they are parameters.
 */
module TraducirPdf {
  import opened Wrappers
  import opened Text

  /** An installed language: its code and display name. */
  datatype Language = Language(code: string, name: string)

  /** An installed translation package from one language code to another. */
  datatype Package = Package(fromCode: string, toCode: string)

  /** One entry of the options list: the target code, its name and the language itself. */
  datatype TranslationOption = TranslationOption(code: string, name: string, language: Language)

  const English: string := "en"

  /** `next((lang for lang in installed if lang.code == code), None)`: the first language with that code. */
  function FindLanguage(installed: seq<Language>, code: string): (r: Option<Language>)
    ensures r.None? <==> forall i :: 0 <= i < |installed| ==> installed[i].code != code
    ensures r.Some? ==> exists i :: 0 <= i < |installed| && installed[i] == r.value && r.value.code == code
                                    && forall j :: 0 <= j < i ==> installed[j].code != code
  {
    if installed == [] then None
    else if installed[0].code == code then Some(installed[0])
    else
      var r := FindLanguage(installed[1..], code);
      if r.Some? then
        var i :| 0 <= i < |installed[1..]| && installed[1..][i] == r.value && r.value.code == code
                 && forall j :: 0 <= j < i ==> installed[1..][j].code != code;
        assert installed[i + 1] == r.value;
        Some(r.value)
      else None
  }

  /** A package whose option would be listed: from English, towards an installed language. */
  predicate Eligible(installed: seq<Language>, p: Package) {
    p.fromCode == English && FindLanguage(installed, p.toCode).Some?
  }

  /** The option a code gives. */
  function OptionFor(installed: seq<Language>, code: string): TranslationOption
    requires FindLanguage(installed, code).Some?
  {
    var l := FindLanguage(installed, code).value;
    TranslationOption(code, l.name, l)
  }

  /**
   * The options the package loop adds from `packages` on, when the codes in `seen` are
   * already taken: each eligible package with a new target code adds one, in package order.
   */
  function OptionsFrom(installed: seq<Language>, packages: seq<Package>, seen: set<string>): seq<TranslationOption>
    decreases |packages|
  {
    if packages == [] then []
    else
      var p := packages[0];
      if !Eligible(installed, p) || p.toCode in seen then OptionsFrom(installed, packages[1..], seen)
      else [OptionFor(installed, p.toCode)] + OptionsFrom(installed, packages[1..], seen + {p.toCode})
  }

  /**
   * `get_translation_options`: nothing when English is not installed; otherwise one option per
   * target code, the first eligible package for a code winning.
   */
  method GetTranslationOptions(installed: seq<Language>, packages: seq<Package>)
    returns (options: seq<TranslationOption>, english: Option<Language>)
    ensures english == FindLanguage(installed, English)
    ensures english.None? ==> options == []
    ensures english.Some? ==> options == OptionsFrom(installed, packages, {})
  {
    english := FindLanguage(installed, English);
    if english.None? {
      return [], None;
    }
    var seenCodes: set<string> := {};
    options := [];
    for i := 0 to |packages|
      invariant options + OptionsFrom(installed, packages[i..], seenCodes) == OptionsFrom(installed, packages, {})
    {
      assert packages[i..][1..] == packages[i + 1..];
      var package := packages[i];
      if package.fromCode != English {
        continue;
      }
      var targetCode := package.toCode;
      if targetCode in seenCodes {
        continue;
      }
      var targetLanguage := FindLanguage(installed, targetCode);
      if targetLanguage.None? {
        continue;
      }
      seenCodes := seenCodes + {targetCode};
      var option := TranslationOption(targetCode, targetLanguage.value.name, targetLanguage.value);
      assert options + [option] + OptionsFrom(installed, packages[i + 1..], seenCodes)
          == options + ([option] + OptionsFrom(installed, packages[i + 1..], seenCodes));
      options := options + [option];
    }
    assert packages[|packages|..] == [];
    assert options + [] == options;
  }

  /** `select_translation_option`: the first option whose code matches the target, ignoring case. */
  method SelectTranslationOption(targetCode: string, options: seq<TranslationOption>) returns (r: Option<TranslationOption>)
    ensures r.None? <==> forall i :: 0 <= i < |options| ==> Lower(options[i].code) != Lower(targetCode)
    ensures r.Some? ==> exists i :: 0 <= i < |options| && options[i] == r.value
                                    && Lower(r.value.code) == Lower(targetCode)
                                    && forall j :: 0 <= j < i ==> Lower(options[j].code) != Lower(targetCode)
  {
    var normalizedCode := Lower(targetCode);
    for i := 0 to |options|
      invariant forall j :: 0 <= j < i ==> Lower(options[j].code) != normalizedCode
    {
      if Lower(options[i].code) == normalizedCode {
        return Some(options[i]);
      }
    }
    return None;
  }

  /** `safe_total` and `safe_current` of `print_progress`. */
  function SafeCounts(current: int, total: int): (r: (int, int))
    ensures r.0 >= 1 && 0 <= r.1 <= r.0
    ensures total >= 1 ==> r.0 == total
    ensures 0 <= current <= total ==> r.1 == current
    ensures current >= r.0 ==> r.1 == r.0
    ensures current <= 0 ==> r.1 == 0
  {
    var safeTotal := if total >= 1 then total else 1;
    var safeCurrent := if current <= 0 then 0 else if current >= safeTotal then safeTotal else current;
    (safeTotal, safeCurrent)
  }

  /** `filled_length = int(length * percent)`, taken as the floor of length * current / total. */
  function Filled(current: int, total: int, length: nat): (f: nat)
    ensures f <= length
  {
    var (safeTotal, safeCurrent) := SafeCounts(current, total);
    ShareOfLength(length, safeCurrent, safeTotal);
    length * safeCurrent / safeTotal
  }

  /** The bar `print_progress` draws: `#` for the filled part, `-` for the rest. */
  function ProgressBar(current: int, total: int, length: nat): (bar: string)
    ensures |bar| == length
    ensures forall i :: 0 <= i < length ==> (bar[i] == '#' <==> i < Filled(current, total, length))
    ensures forall i :: 0 <= i < length ==> (bar[i] == '-' <==> i >= Filled(current, total, length))
  {
    var filled := Filled(current, total, length);
    Repeat('#', filled) + Repeat('-', length - filled)
  }

  // ---------------------------------------------------------------------------
  // Lemmas

  /** No option takes a code that was already taken. */
  lemma {:induction false} OptionsAvoidSeen(installed: seq<Language>, packages: seq<Package>, seen: set<string>)
    ensures forall o :: o in OptionsFrom(installed, packages, seen) ==> o.code !in seen
    decreases |packages|
  {
    if packages != [] {
      var p := packages[0];
      if !Eligible(installed, p) || p.toCode in seen {
        OptionsAvoidSeen(installed, packages[1..], seen);
      } else {
        OptionsAvoidSeen(installed, packages[1..], seen + {p.toCode});
      }
    }
  }

  /** Every option comes from an eligible package not already taken, with its code's installed language. */
  lemma {:induction false} OptionsSound(installed: seq<Language>, packages: seq<Package>, seen: set<string>)
    ensures forall o :: o in OptionsFrom(installed, packages, seen) ==>
              && o.code !in seen
              && FindLanguage(installed, o.code).Some? && o == OptionFor(installed, o.code)
              && exists k :: 0 <= k < |packages| && packages[k].fromCode == English && packages[k].toCode == o.code
    decreases |packages|
  {
    if packages != [] {
      var p := packages[0];
      var seen' := if !Eligible(installed, p) || p.toCode in seen then seen else seen + {p.toCode};
      OptionsSound(installed, packages[1..], seen');
      forall o | o in OptionsFrom(installed, packages[1..], seen')
        ensures exists k :: 0 <= k < |packages| && packages[k].fromCode == English && packages[k].toCode == o.code
      {
        var k :| 0 <= k < |packages[1..]| && packages[1..][k].fromCode == English && packages[1..][k].toCode == o.code;
        assert packages[k + 1] == packages[1..][k];
      }
    }
  }

  predicate DistinctCodes(opts: seq<TranslationOption>) {
    forall i, j :: 0 <= i < j < |opts| ==> opts[i].code != opts[j].code
  }

  /** No two options share a code. */
  lemma {:induction false} OptionsDistinct(installed: seq<Language>, packages: seq<Package>, seen: set<string>)
    ensures DistinctCodes(OptionsFrom(installed, packages, seen))
    decreases |packages|
  {
    if packages != [] {
      var p := packages[0];
      if !Eligible(installed, p) || p.toCode in seen {
        assert OptionsFrom(installed, packages, seen) == OptionsFrom(installed, packages[1..], seen);
        OptionsDistinct(installed, packages[1..], seen);
      } else {
        var rest := OptionsFrom(installed, packages[1..], seen + {p.toCode});
        OptionsDistinct(installed, packages[1..], seen + {p.toCode});
        OptionsAvoidSeen(installed, packages[1..], seen + {p.toCode});
        var opts := [OptionFor(installed, p.toCode)] + rest;
        assert OptionsFrom(installed, packages, seen) == opts;
        forall i, j | 0 <= i < j < |opts| ensures opts[i].code != opts[j].code {
          assert opts[j] == rest[j - 1];
          assert rest[j - 1] in rest;
          assert rest[j - 1].code !in seen + {p.toCode};
          if i > 0 {
            assert opts[i] == rest[i - 1];
          } else {
            assert opts[i].code == p.toCode;
          }
        }
      }
    }
  }

  /** Every eligible package whose code was not already taken has its code among the options. */
  lemma {:induction false} OptionsComplete(installed: seq<Language>, packages: seq<Package>, seen: set<string>, k: nat)
    requires k < |packages| && Eligible(installed, packages[k]) && packages[k].toCode !in seen
    ensures exists o :: o in OptionsFrom(installed, packages, seen) && o.code == packages[k].toCode
    decreases |packages|
  {
    var p := packages[0];
    var rest := OptionsFrom(installed, packages[1..], if !Eligible(installed, p) || p.toCode in seen then seen else seen + {p.toCode});
    if k == 0 {
      assert OptionFor(installed, p.toCode) in OptionsFrom(installed, packages, seen);
    } else if !Eligible(installed, p) || p.toCode in seen {
      assert packages[1..][k - 1] == packages[k];
      OptionsComplete(installed, packages[1..], seen, k - 1);
    } else if p.toCode == packages[k].toCode {
      assert OptionFor(installed, p.toCode) in OptionsFrom(installed, packages, seen);
    } else {
      assert packages[1..][k - 1] == packages[k];
      OptionsComplete(installed, packages[1..], seen + {p.toCode}, k - 1);
      var o :| o in rest && o.code == packages[k].toCode;
      assert o in OptionsFrom(installed, packages, seen);
    }
  }

  /**
   * Option order follows package order: when option `j` comes after option `i`, every eligible
   * package carrying option `j`'s code is preceded by an eligible package carrying option `i`'s.
   */
  lemma {:induction false} OptionsInPackageOrder(installed: seq<Language>, packages: seq<Package>, seen: set<string>,
                                                 i: nat, j: nat, q: nat)
    requires var opts := OptionsFrom(installed, packages, seen);
             i < j < |opts| && q < |packages| && Eligible(installed, packages[q]) && packages[q].toCode == opts[j].code
    ensures exists p :: 0 <= p < q && Eligible(installed, packages[p])
                        && packages[p].toCode == OptionsFrom(installed, packages, seen)[i].code
    decreases |packages|, 1
  {
    var p0 := packages[0];
    if !Eligible(installed, p0) || p0.toCode in seen {
      var rest := OptionsFrom(installed, packages[1..], seen);
      OptionsAvoidSeen(installed, packages[1..], seen);
      assert rest[j] in rest;
      assert q != 0;
      assert packages[1..][q - 1] == packages[q];
      OptionsInPackageOrder(installed, packages[1..], seen, i, j, q - 1);
      EarlierInTail(installed, packages, q, rest[i].code);
    } else {
      TakenInPackageOrder(installed, packages, seen, i, j, q);
    }
  }

  /** The case of `OptionsInPackageOrder` where the first package adds an option. */
  lemma {:induction false} TakenInPackageOrder(installed: seq<Language>, packages: seq<Package>, seen: set<string>,
                                               i: nat, j: nat, q: nat)
    requires packages != [] && Eligible(installed, packages[0]) && packages[0].toCode !in seen
    requires var opts := OptionsFrom(installed, packages, seen);
             i < j < |opts| && q < |packages| && Eligible(installed, packages[q]) && packages[q].toCode == opts[j].code
    ensures exists p :: 0 <= p < q && Eligible(installed, packages[p])
                        && packages[p].toCode == OptionsFrom(installed, packages, seen)[i].code
    decreases |packages|, 0
  {
    var p0 := packages[0];
    var seen' := seen + {p0.toCode};
    var opts := OptionsFrom(installed, packages, seen);
    var rest := OptionsFrom(installed, packages[1..], seen');
    OptionsAvoidSeen(installed, packages[1..], seen');
    assert opts == [OptionFor(installed, p0.toCode)] + rest;
    assert opts[j] == rest[j - 1];
    assert rest[j - 1] in rest;
    assert q != 0;
    if i == 0 {
      assert packages[0].toCode == opts[0].code;
    } else {
      assert packages[1..][q - 1] == packages[q];
      OptionsInPackageOrder(installed, packages[1..], seen', i - 1, j - 1, q - 1);
      EarlierInTail(installed, packages, q, rest[i - 1].code);
      assert opts[i] == rest[i - 1];
    }
  }

  /** An eligible package before position q - 1 of the tail is one before position q of the whole. */
  lemma EarlierInTail(installed: seq<Language>, packages: seq<Package>, q: nat, code: string)
    requires 1 <= q <= |packages|
    requires exists p :: 0 <= p < q - 1 && Eligible(installed, packages[1..][p]) && packages[1..][p].toCode == code
    ensures exists p :: 0 <= p < q && Eligible(installed, packages[p]) && packages[p].toCode == code
  {
    var p :| 0 <= p < q - 1 && Eligible(installed, packages[1..][p]) && packages[1..][p].toCode == code;
    assert packages[p + 1] == packages[1..][p];
  }

  /** The bar fills as the count grows. */
  lemma FilledMonotone(c1: int, c2: int, total: int, length: nat)
    requires c1 <= c2
    ensures Filled(c1, total, length) <= Filled(c2, total, length)
  {
    var (t, s1) := SafeCounts(c1, total);
    var (_, s2) := SafeCounts(c2, total);
    assert length * s1 <= length * s2;
    DivMonotone(length * s1, length * s2, t);
  }

  lemma DivMonotone(a: int, b: int, d: int)
    requires 0 <= a <= b && d > 0
    ensures a / d <= b / d
  {
    var qa, qb := a / d, b / d;
    assert qa * d <= a;
    assert b < (qb + 1) * d;
    if qa >= qb + 1 {
      MulMono(qb + 1, qa, d);
    }
  }

  /** A share c/t of a length, rounded down, lies between 0 and the length. */
  lemma ShareOfLength(length: nat, c: int, t: int)
    requires 0 <= c <= t && t > 0
    ensures 0 <= length * c / t <= length
  {
    MulMono(0, c, length);
    MulMono(c, t, length);
    DivMonotone(length * c, length * t, t);
    MulDivCancel(length, t);
  }

  lemma MulMono(x: int, y: int, d: int)
    requires x <= y && d >= 0
    ensures x * d <= y * d
  {
    assert (y - x) * d >= 0;
  }

  /** Done (or over, with at least one page counted) fills the whole bar; nothing done leaves it empty. */
  lemma BarEnds(current: int, total: int, length: nat)
    ensures current >= total && current >= 1 ==> Filled(current, total, length) == length
    ensures current <= 0 ==> Filled(current, total, length) == 0
  {
    var (t, s) := SafeCounts(current, total);
    if current >= total && current >= 1 {
      MulDivCancel(length, t);
    }
  }

  lemma MulDivCancel(a: nat, t: int)
    requires t > 0
    ensures a * t / t == a
  {
    var q := a * t / t;
    var r := a * t % t;
    assert a * t == q * t + r;
    assert (a - q) * t == r;
    if a - q >= 1 {
      MulMono(1, a - q, t);
    } else if a - q <= -1 {
      MulMono(a - q, -1, t);
    }
  }
}
