/**
 * The font mapper of translator/pdf_layout.py: any font name found in a page is sent to one
 * of six PDF base-14 identifiers, Courier for monospace faces and Helvetica for all others.
 */
module FontMapping {
  import opened Text

  /** The closed set of identifiers the mapper may return. */
  const BaseFonts: set<string> := {"helv", "helv-b", "helv-i", "helv-bi", "cour", "cour-b"}

  /** The name as the mapper inspects it: lower-cased, with '-', ' ' and '_' removed (in that order). */
  function Normalize(original: string): string {
    RemoveChar(RemoveChar(RemoveChar(Lower(original), '-'), ' '), '_')
  }

  predicate IsSeparator(c: char) {
    c == '-' || c == ' ' || c == '_'
  }

  predicate IsMonospace(f: string) {
    Contains(f, "courier") || Contains(f, "mono") || Contains(f, "console")
  }

  /**
   * Courier exactly for monospace names; the bold variant exactly when "bold" occurs; an
   * italic variant exactly for non-monospace names that mention "italic".
   */
  function MapFontName(original: string): (r: string)
    ensures r in BaseFonts
    ensures original == "" ==> r == "helv"
    ensures r in {"cour", "cour-b"} <==> IsMonospace(Normalize(original))
    ensures r in {"cour-b", "helv-b", "helv-bi"} <==> Contains(Normalize(original), "bold")
    ensures r in {"helv-i", "helv-bi"} <==> !IsMonospace(Normalize(original)) && Contains(Normalize(original), "italic")
  {
    if original == "" then "helv"
    else
      var f := Normalize(original);
      if IsMonospace(f) then
        if Contains(f, "bold") then "cour-b" else "cour"
      else if Contains(f, "bold") && Contains(f, "italic") then "helv-bi"
      else if Contains(f, "bold") then "helv-b"
      else if Contains(f, "italic") then "helv-i"
      else "helv"
  }

  // ---------------------------------------------------------------------------
  // Lemmas

  /** The mapping sees the name only through its normalised form (the empty name included). */
  lemma MapDependsOnNormalForm(s: string, t: string)
    requires Normalize(s) == Normalize(t)
    ensures MapFontName(s) == MapFontName(t)
  {
  }

  /** Normalisation distributes over concatenation. */
  lemma NormalizeConcat(a: string, b: string)
    ensures Normalize(a + b) == Normalize(a) + Normalize(b)
  {
    LowerConcat(a, b);
    var l1 := RemoveChar(Lower(a), '-');
    var l2 := RemoveChar(Lower(b), '-');
    RemoveCharConcat(Lower(a), Lower(b), '-');
    var m1 := RemoveChar(l1, ' ');
    var m2 := RemoveChar(l2, ' ');
    RemoveCharConcat(l1, l2, ' ');
    RemoveCharConcat(m1, m2, '_');
  }

  /** Letter case does not matter. */
  lemma CaseInsensitive(s: string, t: string)
    requires Lower(s) == Lower(t)
    ensures MapFontName(s) == MapFontName(t)
  {
    MapDependsOnNormalForm(s, t);
  }

  /** Inserting a '-', ' ' or '_' anywhere in the name does not change the result. */
  lemma SeparatorInsensitive(a: string, c: char, b: string)
    requires IsSeparator(c)
    ensures MapFontName(a + [c] + b) == MapFontName(a + b)
  {
    NormalizeConcat(a + [c], b);
    NormalizeConcat(a, [c]);
    NormalizeConcat(a, b);
    assert Normalize([c]) == [] by {
      assert Lower([c]) == [c];
      assert RemoveChar([c], '-') == (if c == '-' then [] else [c]) + RemoveChar([], '-');
      if c != '-' {
        assert RemoveChar([c], ' ') == (if c == ' ' then [] else [c]) + RemoveChar([], ' ');
        if c != ' ' {
          assert RemoveChar([c], '_') == [] + RemoveChar([], '_');
        }
      }
    }
    MapDependsOnNormalForm(a + [c] + b, a + b);
  }

  /** A monospace name gets Courier, bold exactly when it says "bold", whatever it says about italics. */
  lemma MonospaceTakesPrecedence(s: string)
    requires IsMonospace(Normalize(s))
    ensures MapFontName(s) == "cour-b" <==> Contains(Normalize(s), "bold")
    ensures MapFontName(s) == "cour" <==> !Contains(Normalize(s), "bold")
  {
  }
}
