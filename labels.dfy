/**
  `simplifyLabel`: the one-word radar-chart label of a criterion, chosen by an ordered
  keyword test on the lower-cased name, falling back to the name's first space-separated
  word. Lower-casing is restricted to ASCII letters.
*/
module Labels {

  function ToLowerChar(c: char): char
  {
    if 'A' <= c <= 'Z' then (c as int + 32) as char else c
  }

  function ToLowerAscii(s: string): (r: string)
    ensures |r| == |s|
    ensures forall i :: 0 <= i < |s| ==> r[i] == ToLowerChar(s[i])
  {
    if s == [] then [] else [ToLowerChar(s[0])] + ToLowerAscii(s[1..])
  }

  function StartsWith(s: string, t: string): bool
  {
    |t| <= |s| && s[..|t|] == t
  }

  /** `s.includes(t)`. */
  function Contains(s: string, t: string): bool
  {
    StartsWith(s, t) || (s != [] && Contains(s[1..], t))
  }

  /** `t` occurs in `s` at position `i`. */
  ghost predicate OccursAt(s: string, t: string, i: int)
  {
    0 <= i && i + |t| <= |s| && s[i..i + |t|] == t
  }

  /** `Contains` finds `t` exactly when `t` occurs somewhere in `s`. */
  lemma {:induction false} ContainsIff(s: string, t: string)
    ensures Contains(s, t) <==> exists i :: OccursAt(s, t, i)
  {
    if StartsWith(s, t) {
      assert OccursAt(s, t, 0);
    } else if s == [] {
      assert forall i :: !OccursAt(s, t, i);
    } else {
      forall i | OccursAt(s[1..], t, i)
        ensures OccursAt(s, t, i + 1)
      {
        assert s[i + 1..i + 1 + |t|] == s[1..][i..i + |t|];
      }
      forall i | 0 < i && OccursAt(s, t, i)
        ensures OccursAt(s[1..], t, i - 1)
      {
        assert s[1..][i - 1..i - 1 + |t|] == s[i..i + |t|];
      }
      ContainsIff(s[1..], t);
    }
  }

  /** `s.split(' ')[0]`. */
  function FirstWord(s: string): (r: string)
    ensures |r| <= |s| && r == s[..|r|]
    ensures ' ' !in r
    ensures |r| == |s| || s[|r|] == ' '
  {
    if s == [] || s[0] == ' ' then [] else [s[0]] + FirstWord(s[1..])
  }

  function ContainsAny(s: string, keys: seq<string>): bool
  {
    exists k :: k in keys && Contains(s, k)
  }

  const CostWords: seq<string> := ["cost", "price", "afford"]
  const ProgramWords: seq<string> := ["program", "academic", "education"]
  const LocationWords: seq<string> := ["location", "place", "geography"]
  const CultureWords: seq<string> := ["culture", "fit", "social"]

  function SimplifyLabel(name: string): (r: string)
    ensures r in {"Cost", "Program", "Location", "Culture"} || r == FirstWord(name)
  {
    var nameLower := ToLowerAscii(name);
    if ContainsAny(nameLower, CostWords) then "Cost"
    else if ContainsAny(nameLower, ProgramWords) then "Program"
    else if ContainsAny(nameLower, LocationWords) then "Location"
    else if ContainsAny(nameLower, CultureWords) then "Culture"
    else FirstWord(name)
  }

  /** Some word of `words` occurs in the ASCII-lower-cased `name`. */
  ghost predicate Mentions(name: string, words: seq<string>)
  {
    exists k, i :: k in words && OccursAt(ToLowerAscii(name), k, i)
  }

  lemma MentionsIff(name: string, words: seq<string>)
    ensures ContainsAny(ToLowerAscii(name), words) <==> Mentions(name, words)
  {
    forall k | k in words {
      ContainsIff(ToLowerAscii(name), k);
    }
  }

  /** A first word that lower-cases to `k` puts `k` at the start of the lower-cased name. */
  lemma FirstWordOccurs(name: string, k: string)
    requires ToLowerAscii(FirstWord(name)) == k
    ensures OccursAt(ToLowerAscii(name), k, 0)
  {
    var w := FirstWord(name);
    var lower := ToLowerAscii(name);
    forall j | 0 <= j < |k|
      ensures lower[j] == k[j]
    {
      assert w[j] == name[j];
    }
  }

  /** The label is decided by which keyword groups the lower-cased name mentions, tried
      in the order cost, program, location, culture; a name mentioning none keeps its
      first word. Each keyword label is produced exactly when its group is the first one
      mentioned, also when the first word itself happens to be that label. */
  lemma SimplifyLabelSpec(name: string)
    ensures SimplifyLabel(name) == "Cost" <==> Mentions(name, CostWords)
    ensures SimplifyLabel(name) == "Program"
      <==> !Mentions(name, CostWords) && Mentions(name, ProgramWords)
    ensures SimplifyLabel(name) == "Location"
      <==> !Mentions(name, CostWords) && !Mentions(name, ProgramWords) && Mentions(name, LocationWords)
    ensures SimplifyLabel(name) == "Culture"
      <==> (!Mentions(name, CostWords) && !Mentions(name, ProgramWords) && !Mentions(name, LocationWords)
        && Mentions(name, CultureWords))
    ensures !Mentions(name, CostWords) && !Mentions(name, ProgramWords) && !Mentions(name, LocationWords)
        && !Mentions(name, CultureWords)
      ==> SimplifyLabel(name) == FirstWord(name)
  {
    MentionsIff(name, CostWords);
    MentionsIff(name, ProgramWords);
    MentionsIff(name, LocationWords);
    MentionsIff(name, CultureWords);
    if !Mentions(name, CostWords) && !Mentions(name, ProgramWords) && !Mentions(name, LocationWords)
      && !Mentions(name, CultureWords)
    {
      LabelsLowered();
      NotMentionedFirstWord(name, CostWords, "Cost", "cost");
      NotMentionedFirstWord(name, ProgramWords, "Program", "program");
      NotMentionedFirstWord(name, LocationWords, "Location", "location");
      NotMentionedFirstWord(name, CultureWords, "Culture", "culture");
    }
  }

  /** The four keyword labels lower-case to the first word of their groups. */
  lemma LabelsLowered()
    ensures ToLowerAscii("Cost") == "cost" && ToLowerAscii("Program") == "program"
    ensures ToLowerAscii("Location") == "location" && ToLowerAscii("Culture") == "culture"
  {
    CostLowered();
    ProgramLowered();
    LocationLowered();
    CultureLowered();
  }

  lemma CostLowered() ensures ToLowerAscii("Cost") == "cost" { LowerWord("Cost", "cost"); }
  lemma ProgramLowered() ensures ToLowerAscii("Program") == "program" { LowerWord("Program", "program"); }
  lemma LocationLowered() ensures ToLowerAscii("Location") == "location" { LowerWord("Location", "location"); }
  lemma CultureLowered() ensures ToLowerAscii("Culture") == "culture" { LowerWord("Culture", "culture"); }

  lemma LowerWord(w: string, k: string)
    requires |w| == |k| && forall j :: 0 <= j < |w| ==> ToLowerChar(w[j]) == k[j]
    ensures ToLowerAscii(w) == k
  {
  }

  /** A name that mentions no word of a group cannot have that group's label as its
      first word. */
  lemma NotMentionedFirstWord(name: string, words: seq<string>, title: string, k: string)
    requires k in words && ToLowerAscii(title) == k
    requires !Mentions(name, words)
    ensures FirstWord(name) != title
  {
    if FirstWord(name) == title {
      FirstWordOccurs(name, k);
    }
  }

  /** Two names that differ only in ASCII letter case get the same label unless neither
      matches a keyword, in which case each keeps its own first word. */
  lemma SimplifyLabelCaseInsensitive(a: string, b: string)
    requires ToLowerAscii(a) == ToLowerAscii(b)
    requires ContainsAny(ToLowerAscii(a), CostWords + ProgramWords + LocationWords + CultureWords)
    ensures SimplifyLabel(a) == SimplifyLabel(b)
  {
  }
}
