/** The availability probe of app.py (hay_turnos_disponibles): from the text of
    the parish's sick-visit appointments page it decides whether slots are open.
    Fetching the page and extracting its text are foreign calls; their result,
    or their failure, is the input here. */
module Availability {

  /** The page says that there are no slots for the sick right now (written
      in two halves, which keeps the proofs about it small). */
  const NoSlotsPhrase: string := "en este momento la parroquia " + "no cuenta con cupos para enfermos"
  /** Heading shown when slots for patients aged up to 17 are open. */
  const MinorsPhrase: string := "turnos enfermos menores de 17 años"
  /** Heading shown when slots for patients aged 18 and over are open. */
  const AdultsPhrase: string := "turnos enfermos mayores de 18 años"

  /** What fetching the page and extracting its text produced: the text, or
      an exception raised on the way (connection, parsing). An error status
      does not raise, so an error page is `Fetched` with that page's text. */
  datatype Fetch = Fetched(text: string) | FetchFailed

  /** `sub` occurs in `s` starting at index `i`. */
  predicate OccursAt(s: string, sub: string, i: nat)
  {
    i + |sub| <= |s| && s[i..i + |sub|] == sub
  }

  /** Python's `sub in s` on strings: only a string no longer than `s` can
      be in it. */
  function Contains(s: string, sub: string): (r: bool)
    ensures r ==> |sub| <= |s|
  {
    exists i :: 0 <= i <= |s| && OccursAt(s, sub, i)
  }

  /** ASCII and Latin-1 capital letters (U+00D7, the multiplication sign,
      sits among them but is not a letter). */
  predicate Capital(c: char)
  {
    'A' <= c <= 'Z' || ('À' <= c <= 'Þ' && c != '×')
  }

  /** Lower-casing of one character: a capital maps to its small letter,
      everything else is kept. */
  function LowerChar(c: char): (d: char)
    ensures !Capital(d)
    ensures c != d ==> Capital(c) && d as int == c as int + 32
  {
    if Capital(c) then (c as int + 32) as char else c
  }

  /** `str.lower()` on the characters LowerChar covers: every capital becomes
      its small letter, no capital is left, only capitals change, and text
      without capitals is kept as it is. */
  function Lower(s: string): (r: string)
    ensures |r| == |s|
    ensures forall i :: 0 <= i < |r| ==> !Capital(r[i])
    ensures forall i :: 0 <= i < |s| && r[i] != s[i] ==> Capital(s[i])
    ensures forall i :: 0 <= i < |s| && Capital(s[i]) ==> r[i] as int == s[i] as int + 32
    ensures (forall i :: 0 <= i < |s| ==> !Capital(s[i])) ==> r == s
  {
    seq(|s|, i requires 0 <= i < |s| => LowerChar(s[i]))
  }

  /** The decision of app.py on lower-cased text: the "no slots" sentence
      wins; otherwise either age-bracket heading means slots are open. */
  function SlotsOpen(texto: string): (r: bool)
    ensures r ==> !Contains(texto, NoSlotsPhrase)
    ensures r ==> Contains(texto, MinorsPhrase) || Contains(texto, AdultsPhrase)
    ensures !Contains(texto, NoSlotsPhrase) && (Contains(texto, MinorsPhrase) || Contains(texto, AdultsPhrase)) ==> r
  {
    if Contains(texto, NoSlotsPhrase) then false
    else Contains(texto, MinorsPhrase) || Contains(texto, AdultsPhrase)
  }

  /** hay_turnos_disponibles: lower-case the page text and decide; any
      failure on the way is reported as "no slots". */
  function Probe(page: Fetch): (r: bool)
    ensures page.FetchFailed? ==> !r
    ensures r ==> page.Fetched? && !Contains(Lower(page.text), NoSlotsPhrase)
    ensures r ==> Contains(Lower(page.text), MinorsPhrase) || Contains(Lower(page.text), AdultsPhrase)
  {
    match page
    case FetchFailed => false
    case Fetched(html) => SlotsOpen(Lower(html))
  }

  /** As in Python, the empty string is in every string and every string is
      in itself. */
  lemma ContainsEmptyAndSelf(s: string)
    ensures Contains(s, "")
    ensures Contains(s, s)
  {
    assert OccursAt(s, "", 0);
    assert OccursAt(s, s, 0);
  }

  /** An occurrence of `p` between any two pieces of text is found. */
  lemma ContainsSplit(a: string, p: string, b: string)
    ensures Contains(a + p + b, p)
  {
    var s := a + p + b;
    assert s[|a|..|a| + |p|] == p;
    assert OccursAt(s, p, |a|);
  }

  /** Conversely, every occurrence splits the text around the phrase. */
  lemma SplitAtOccurrence(s: string, p: string) returns (a: string, b: string)
    requires Contains(s, p)
    ensures s == a + p + b
  {
    var i :| 0 <= i <= |s| && OccursAt(s, p, i);
    a, b := s[..i], s[i + |p|..];
    assert s == s[..i] + s[i..i + |p|] + s[i + |p|..];
  }

  /** Lower-casing distributes over concatenation. */
  lemma LowerConcat(a: string, b: string)
    ensures Lower(a + b) == Lower(a) + Lower(b)
  {
  }

  /** The three phrases are already lower case, so `.lower()` on the page
      keeps them; the long sentence is checked in two halves. */
  lemma NoSlotsPhraseIsLowerCase()
    ensures Lower(NoSlotsPhrase) == NoSlotsPhrase
  {
    var head, tail := "en este momento la parroquia ", "no cuenta con cupos para enfermos";
    NoSlotsHeadIsLowerCase();
    NoSlotsTailIsLowerCase();
    LowerConcat(head, tail);
  }

  lemma NoSlotsHeadIsLowerCase()
    ensures Lower("en este momento la parroquia ") == "en este momento la parroquia "
  {
    var head := "en este momento la parroquia ";
    assert forall i :: 0 <= i < |head| ==> !Capital(head[i]);
  }

  lemma NoSlotsTailIsLowerCase()
    ensures Lower("no cuenta con cupos para enfermos") == "no cuenta con cupos para enfermos"
  {
    var tail := "no cuenta con cupos para enfermos";
    assert forall i :: 0 <= i < |tail| ==> !Capital(tail[i]);
  }

  lemma MinorsPhraseIsLowerCase()
    ensures Lower(MinorsPhrase) == MinorsPhrase
  {
    assert forall i :: 0 <= i < |MinorsPhrase| ==> !Capital(MinorsPhrase[i]);
  }

  lemma AdultsPhraseIsLowerCase()
    ensures Lower(AdultsPhrase) == AdultsPhrase
  {
    assert forall i :: 0 <= i < |AdultsPhrase| ==> !Capital(AdultsPhrase[i]);
  }

  /** Lower-casing never loses an occurrence: if `p` occurs in the page, its
      lower-cased form occurs in the lower-cased page. */
  lemma LowerKeepsOccurrence(s: string, p: string)
    requires Contains(s, p)
    ensures Contains(Lower(s), Lower(p))
  {
    var a, b := SplitAtOccurrence(s, p);
    LowerConcat(a + p, b);
    LowerConcat(a, p);
    ContainsSplit(Lower(a), Lower(p), Lower(b));
  }

  /** The "no slots" sentence, in any capitalisation and whatever surrounds
      it, makes the probe report no slots. */
  lemma NoSlotsSentenceWins(a: string, p: string, b: string)
    requires Lower(p) == NoSlotsPhrase
    ensures !Probe(Fetched(a + p + b))
  {
    ContainsSplit(a, p, b);
    LowerKeepsOccurrence(a + p + b, p);
  }

  /** In particular the sentence spelled as app.py spells it (all lower case). */
  lemma ExactNoSlotsSentence(a: string, b: string)
    ensures !Probe(Fetched(a + NoSlotsPhrase + b))
  {
    NoSlotsPhraseIsLowerCase();
    NoSlotsSentenceWins(a, NoSlotsPhrase, b);
  }

  /** Either age-bracket heading, in any capitalisation, makes the probe
      report slots, unless the page also carries the "no slots" sentence. */
  lemma AgeHeadingAnnounces(a: string, p: string, b: string)
    requires Lower(p) == MinorsPhrase || Lower(p) == AdultsPhrase
    requires !Contains(Lower(a + p + b), NoSlotsPhrase)
    ensures Probe(Fetched(a + p + b))
  {
    ContainsSplit(a, p, b);
    LowerKeepsOccurrence(a + p + b, p);
  }

  /** In particular either heading spelled as app.py spells it (all lower case). */
  lemma ExactHeadingAnnounces(a: string, heading: string, b: string)
    requires heading == MinorsPhrase || heading == AdultsPhrase
    requires !Contains(Lower(a + heading + b), NoSlotsPhrase)
    ensures Probe(Fetched(a + heading + b))
  {
    MinorsPhraseIsLowerCase();
    AdultsPhraseIsLowerCase();
    AgeHeadingAnnounces(a, heading, b);
  }

  /** Without either heading the probe reports no slots. */
  lemma NoHeadingNoSlots(html: string)
    requires !Contains(Lower(html), MinorsPhrase) && !Contains(Lower(html), AdultsPhrase)
    ensures !Probe(Fetched(html))
  {
  }

  /** `.lower()` of the capitalised heading, computed in two halves. */
  lemma CapitalisedMinorsHeading()
    ensures Lower("TURNOS ENFERMOS MENORES DE 17 AÑOS") == MinorsPhrase
  {
    var head, tail := "TURNOS ENFERMOS ", "MENORES DE 17 AÑOS";
    assert "TURNOS ENFERMOS MENORES DE 17 AÑOS" == head + tail;
    MinorsPhraseHalves();
    CapitalisedHeadLower();
    CapitalisedTailLower();
    LowerConcat(head, tail);
  }

  lemma MinorsPhraseHalves()
    ensures MinorsPhrase == "turnos enfermos " + "menores de 17 años"
  {
  }

  lemma CapitalisedHeadLower()
    ensures Lower("TURNOS ENFERMOS ") == "turnos enfermos "
  {
    var head := "TURNOS ENFERMOS ";
    assert forall i :: 0 <= i < |head| ==> LowerChar(head[i]) == "turnos enfermos "[i];
  }

  lemma CapitalisedTailLower()
    ensures Lower("MENORES DE 17 AÑOS") == "menores de 17 años"
  {
    var tail := "MENORES DE 17 AÑOS";
    assert forall i :: 0 <= i < |tail| ==> LowerChar(tail[i]) == "menores de 17 años"[i];
  }

  /** A page carrying only the minors' heading in capitals is read as open. */
  lemma CapitalisedHeadingExample()
    ensures Probe(Fetched("TURNOS ENFERMOS MENORES DE 17 AÑOS"))
  {
    var p := "TURNOS ENFERMOS MENORES DE 17 AÑOS";
    CapitalisedMinorsHeading();
    assert p == "" + p + "";
    assert !Contains(MinorsPhrase, NoSlotsPhrase) by {
      assert |MinorsPhrase| < |NoSlotsPhrase|;
    }
    AgeHeadingAnnounces("", p, "");
  }
}
