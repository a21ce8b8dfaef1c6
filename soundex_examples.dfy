/** Codes the repository's own test suite expects from xsoundex
    (TBA/algorithms/examples/test/test_xsoundex.py), each derived from the
    general lemmas of module Soundex one character of the name at a time. */
module SoundexExamples {

  import opened Soundex

  lemma KnownCodeSmith()
    ensures Code("Smith") == "S-530"
  {
    assert "Smith"[1..] == "mith";
    assert Pad3("53") == "530";
    ReduceSmith();
    CodeFromParts("Smith", 'S', '2', "mith", "53");
  }

  lemma ReduceSmith()
    ensures Reduce('2', "mith") == "53"
  {
    assert "mith"[1..] == "ith" && "ith"[1..] == "th" && "th"[1..] == "h" && "h"[1..] == [];
    assert Reduce('3', "h") == [];
    assert Reduce(Sentinel, "th") == "3";
    assert Reduce('5', "ith") == "3";
  }

  lemma KnownCodeLee()
    ensures Code("Lee") == "L-000"
  {
    assert "Lee"[1..] == "ee" && "ee"[1..] == "e" && "e"[1..] == [];
    assert Pad3([]) == "000";
    CodeFromParts("Lee", 'L', '4', "ee", []);
  }

  lemma KnownCodeVanDeusen()
    ensures Code("VanDeusen") == "V-532"
  {
    assert "VanDeusen"[1..] == "anDeusen";
    assert Pad3("5325") == "532";
    ReduceVanDeusen();
    CodeFromParts("VanDeusen", 'V', '1', "anDeusen", "5325");
  }

  /** The space between the two parts of the name separates them, to the
      same effect as the vowel after it. */
  lemma KnownCodeVanSpaceDeusen()
    ensures Code("Van Deusen") == "V-532"
  {
    assert "Van Deusen"[1..] == "an Deusen";
    assert Pad3("5325") == "532";
    ReduceVanSpaceDeusen();
    CodeFromParts("Van Deusen", 'V', '1', "an Deusen", "5325");
  }

  lemma ReduceVanDeusen()
    ensures Reduce('1', "anDeusen") == "5325"
  {
    ReduceNDeusen();
  }

  lemma ReduceNDeusen()
    ensures Reduce(Sentinel, "nDeusen") == "5325"
  {
    ReduceDeusen();
  }

  lemma ReduceVanSpaceDeusen()
    ensures Reduce('1', "an Deusen") == "5325"
  {
    ReduceNSpaceDeusen();
  }

  lemma ReduceNSpaceDeusen()
    ensures Reduce(Sentinel, "n Deusen") == "5325"
  {
    ReduceSpaceDeusen();
  }

  /** The space resets the last code, so the 'D' after it is coded. */
  lemma ReduceSpaceDeusen()
    ensures Reduce('5', " Deusen") == "325"
  {
    ReduceDeusen();
  }

  /** A separator followed by a final 'n'. */
  lemma ReduceEn(last: char)
    ensures Reduce(last, "en") == "5"
  {
  }

  lemma ReduceDeusen()
    ensures Reduce(Sentinel, "Deusen") == "325"
    ensures Reduce('5', "Deusen") == "325"
  {
    ReduceEusen();
  }

  lemma ReduceEusen()
    ensures Reduce('3', "eusen") == "25"
  {
    ReduceUsen();
  }

  lemma ReduceUsen()
    ensures Reduce(Sentinel, "usen") == "25"
  {
    ReduceEn('2');
    assert Reduce(Sentinel, "sen") == "2" + Reduce('2', "en");
  }

  lemma KnownCodeOBrien()
    ensures Code("OBrien") == "O-165"
  {
    assert ['O'] + "Brien" == "OBrien";
    assert ['O', '-'] + "165" == "O-165";
    ReduceBrien();
    CodeAfterSeparator('O', "Brien", "165");
  }

  /** The apostrophe is a separator, as the first letter is. */
  lemma KnownCodeOApostropheBrien()
    ensures Code("O'Brien") == "O-165"
  {
    assert ['O'] + "'Brien" == "O'Brien";
    assert ['O', '-'] + "165" == "O-165";
    ReduceApostropheBrien();
    CodeAfterSeparator('O', "'Brien", "165");
  }

  lemma ReduceApostropheBrien()
    ensures Reduce(Sentinel, "'Brien") == "165"
  {
    ReduceBrien();
  }

  lemma ReduceBrien()
    ensures Reduce(Sentinel, "Brien") == "165"
  {
    ReduceRien();
    assert Reduce(Sentinel, "Brien") == "1" + Reduce('1', "rien");
  }

  lemma ReduceRien()
    ensures Reduce('1', "rien") == "65"
  {
    ReduceEn(Sentinel);
    assert Reduce('1', "rien") == "6" + Reduce('6', "ien");
  }
}
