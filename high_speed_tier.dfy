/**
 * The exact-then-fuzzy tier of test_high_speed_enrichment.py: foundation
 * names, normalized with the extended vocabulary, map to the EIN of the
 * first foundation that produces them; a grant's recipient is looked up
 * exactly first and fuzzy-matched at score 95 or more only when that fails.
 */
module HighSpeedTier {
  import opened Wrappers
  import opened Text
  import opened Dicts
  import opened Fuzzy
  import opened Normalizer
  import opened Enrichment
  import opened Buckets

  const Cutoff := 95

  /** A row of `SELECT ein, name FROM foundations WHERE name IS NOT NULL`. */
  datatype FoundationRow = FoundationRow(ein: string, name: string)

  /** A row of `SELECT id, recipient_name FROM grants WHERE ...`. */
  datatype Grant = Grant(id: int, recipientName: Option<string>)

  /** A foundation's name normalized with the extended vocabulary. */
  function NormalizedName(row: FoundationRow): (r: string)
    ensures row.name == "" ==> r == ""
    ensures r == [] || (!IsSpace(r[0]) && !IsSpace(r[|r| - 1]))
  {
    NormalizeNameExtended(Some(row.name))
  }

  function EinOf(row: FoundationRow): string
  {
    row.ein
  }

  /** What a foundation row offers `temp_map`: its truthy normalized name and its EIN. */
  function NameEntry(row: FoundationRow): Option<(string, string)>
  {
    var normalized := NormalizedName(row);
    if normalized != "" then Some((normalized, row.ein)) else None
  }

  lemma NameEntryKeyed()
    ensures KeyedBy(NameEntry, NormalizedName, EinOf, "")
  {
  }

  /** The loop `if normalized and normalized not in temp_map: temp_map[normalized] = row['ein']`. */
  method BuildNameMap(rows: seq<FoundationRow>) returns (m: Dict<string, string>)
    ensures m == FirstWins(rows, NameEntry)
  {
    m := Empty();
    var i := 0;
    while i < |rows|
      invariant i <= |rows|
      invariant m == FirstWins(rows[..i], NameEntry)
    {
      assert rows[..i + 1][..i] == rows[..i];
      var normalized := NormalizedName(rows[i]);
      if normalized != "" && normalized !in m.entries {
        m := Put(m, normalized, rows[i].ein);
      }
      i := i + 1;
    }
    assert rows[..i] == rows;
  }

  /**
   * The map holds a name exactly when some foundation normalizes to it (and
   * it is not empty), with the EIN of the first such foundation; the choices
   * `list(normalized_ein_map.keys())` list each name once.
   */
  lemma NameMapFirstWins(rows: seq<FoundationRow>, n: string, i: nat)
    requires i < |rows| && NormalizedName(rows[i]) == n && n != ""
    requires forall j :: 0 <= j < i ==> NormalizedName(rows[j]) != n
    ensures Valid(FirstWins(rows, NameEntry))
    ensures n in FirstWins(rows, NameEntry).keys
    ensures FirstWins(rows, NameEntry).entries[n] == rows[i].ein
  {
    NameEntryKeyed();
    KeyedFirstWins(rows, NameEntry, NormalizedName, EinOf, "", n, i);
  }

  /** Only names that some foundation normalizes to are keys; `""` never is. */
  lemma NameMapKeysFromRows(rows: seq<FoundationRow>, n: string)
    requires n in FirstWins(rows, NameEntry).entries
    ensures n != ""
    ensures exists i :: 0 <= i < |rows| && NormalizedName(rows[i]) == n
  {
    NameEntryKeyed();
    KeyedKeys(rows, NameEntry, NormalizedName, EinOf, "", n);
  }

  /** `match_grant_recipient(grant)` */
  function MatchGrant(g: Grant, m: Dict<string, string>, score: Scorer): (r: Option<Update>)
    ensures NormalizeNameExtended(g.recipientName) == "" ==> r.None?
    ensures r.Some? ==> r.value.grantId == g.id && r.value.ein != ""
    ensures r.Some? ==> var q := NormalizeNameExtended(g.recipientName);
                        Get(m, q) == Some(r.value.ein)
                        || exists n :: n in m.keys && score(q, n) >= Cutoff && Get(m, n) == Some(r.value.ein)
  {
    var q := NormalizeNameExtended(g.recipientName);
    if q == "" then None
    else
      match Get(m, q)
      case Some(e) =>
        if e != "" then Some(Update(e, g.id)) else MatchInBucket(q, m, Cutoff, score, g.id)
      case None => MatchInBucket(q, m, Cutoff, score, g.id)
  }

  /**
   * An exact hit with a truthy EIN is returned whatever the scorer says:
   * fuzzy matching is never consulted.
   */
  lemma ExactHitSkipsScorer(g: Grant, m: Dict<string, string>, s1: Scorer, s2: Scorer)
    requires NormalizeNameExtended(g.recipientName) != ""
    requires NormalizeNameExtended(g.recipientName) in m.entries
    requires m.entries[NormalizeNameExtended(g.recipientName)] != ""
    ensures MatchGrant(g, m, s1) == MatchGrant(g, m, s2)
            == Some(Update(m.entries[NormalizeNameExtended(g.recipientName)], g.id))
  {
  }

  /**
   * Without a usable exact hit the matcher is `extractOne` over all the
   * map's names at cutoff 95: a match is a name scoring at least 95 against
   * the recipient, and it carries that name's EIN.
   */
  lemma FuzzyFallback(g: Grant, m: Dict<string, string>, score: Scorer)
    requires NormalizeNameExtended(g.recipientName) != ""
    requires Get(m, NormalizeNameExtended(g.recipientName)) == None
             || Get(m, NormalizeNameExtended(g.recipientName)) == Some("")
    ensures MatchGrant(g, m, score) == MatchInBucket(NormalizeNameExtended(g.recipientName), m, Cutoff, score, g.id)
    ensures MatchGrant(g, m, score).Some? ==>
              exists n :: n in m.keys && score(NormalizeNameExtended(g.recipientName), n) >= Cutoff
                          && Get(m, n) == Some(MatchGrant(g, m, score).value.ein)
  {
  }

  // ---------------------------------------------------------------------
  // The extended vocabulary is not idempotent
  // ---------------------------------------------------------------------

  /** A string where no two word characters stand side by side. */
  predicate NoAdjacentWordChars(s: string)
  {
    forall j :: 0 <= j < |s| - 1 ==> !(IsWordChar(s[j]) && IsWordChar(s[j + 1]))
  }

  lemma {:induction false} DeleteFromUnmatched(s: string, w: string, i: nat)
    requires i <= |s|
    requires forall j :: i <= j <= |s| ==> !MatchesAt(s, w, j)
    ensures DeleteFrom(s, w, i) == s[i..]
    decreases |s| - i
  {
    if i < |s| {
      DeleteFromUnmatched(s, w, i + 1);
      assert s[i..] == [s[i]] + s[i + 1..];
    }
  }

  /** A word starting with two word characters matches nowhere in such a string. */
  lemma NoMatchWithoutAdjacentPair(s: string, w: string)
    requires NoAdjacentWordChars(s)
    requires |w| >= 2 && IsWordChar(w[0]) && IsWordChar(w[1])
    ensures DeleteWord(s, w) == s
  {
    forall j | 0 <= j <= |s|
      ensures !MatchesAt(s, w, j)
    {
      if j + |w| <= |s| {
        assert s[j..j + |w|][0] == s[j] && s[j..j + |w|][1] == s[j + 1];
      }
    }
    DeleteFromUnmatched(s, w, 0);
  }

  lemma {:induction false} DeleteAllUnmatched(s: string, ws: seq<string>)
    requires NoAdjacentWordChars(s)
    requires forall k :: 0 <= k < |ws| ==> |ws[k]| >= 2 && IsWordChar(ws[k][0]) && IsWordChar(ws[k][1])
    ensures DeleteAll(s, ws) == s
    decreases |ws|
  {
    if ws != [] {
      NoMatchWithoutAdjacentPair(s, ws[0]);
      DeleteAllUnmatched(s, ws[1..]);
    }
  }

  lemma {:induction false} DeleteAllOfEmpty(ws: seq<string>)
    ensures DeleteAll("", ws) == ""
    decreases |ws|
  {
    if ws != [] {
      DeleteAllOfEmpty(ws[1..]);
    }
  }

  lemma {:induction false} DeleteAllAppend(s: string, a: seq<string>, b: seq<string>)
    ensures DeleteAll(s, a + b) == DeleteAll(DeleteAll(s, a), b)
    decreases |a|
  {
    if a != [] {
      assert (a + b)[0] == a[0] && (a + b)[1..] == a[1..] + b;
      DeleteAllAppend(DeleteWord(s, a[0]), a[1..], b);
    } else {
      assert a + b == b;
    }
  }

  /** A string of `[A-Z0-9_]` and whitespace passes the preparation steps unchanged. */
  lemma PrepareKeeps(s: string)
    requires forall j :: 0 <= j < |s| ==> IsUpperWordChar(s[j]) || IsSpace(s[j])
    ensures Prepare(s) == s
  {
    assert Upper(s) == s;
    assert ReplaceAmpersand(s) == s;
    assert DropPunctuation(s) == s;
  }

  /** Every entry but "L L C" starts with two word characters. */
  lemma ExtendedVocabularyShape()
    ensures ExtendedSuffixes[3] == "L L C"
    ensures forall k :: 0 <= k < |ExtendedSuffixes| && k != 3 ==>
              |ExtendedSuffixes[k]| >= 2 && IsWordChar(ExtendedSuffixes[k][0]) && IsWordChar(ExtendedSuffixes[k][1])
  {
  }

  /** Splits the extended vocabulary around its entry "L L C". */
  lemma ExtendedSplit()
    ensures ExtendedSuffixes == ExtendedSuffixes[..3] + ["L L C"] + ExtendedSuffixes[4..]
    ensures forall k :: 0 <= k < 3 ==> ExtendedSuffixes[..3][k] == ExtendedSuffixes[k]
    ensures forall k :: 0 <= k < |ExtendedSuffixes[4..]| ==> ExtendedSuffixes[4..][k] == ExtendedSuffixes[k + 4]
  {
    var v := ExtendedSuffixes;
    assert v[3] == "L L C";
    SplitAround(v, 3);
  }

  lemma SplitAround<T>(s: seq<T>, k: nat)
    requires k < |s|
    ensures s == s[..k] + [s[k]] + s[k + 1..]
  {
  }

  /** The entry "L L C" does not match "L L  C" anywhere. */
  lemma NoEntryInDoubleSpace()
    ensures DeleteWord("L L  C", "L L C") == "L L  C"
  {
    var s := "L L  C";
    forall j | 0 <= j <= |s|
      ensures !MatchesAt(s, "L L C", j)
    {
      if j + 5 <= |s| {
        assert s[j..j + 5][2] != s[j..j + 5][4];
      }
    }
    DeleteFromUnmatched(s, "L L C", 0);
  }

  /** No entry of the extended vocabulary matches "L L  C". */
  lemma DeleteAllOnDoubleSpace()
    ensures DeleteAll("L L  C", ExtendedSuffixes) == "L L  C"
  {
    var s := "L L  C";
    ExtendedVocabularyShape();
    ExtendedSplit();
    var front := ExtendedSuffixes[..3];
    var back := ExtendedSuffixes[4..];
    assert NoAdjacentWordChars(s);
    DeleteAllUnmatched(s, front);
    NoEntryInDoubleSpace();
    DeleteAllUnmatched(s, back);
    DeleteAllAppend(s, front, ["L L C"]);
    DeleteAllAppend(s, front + ["L L C"], back);
  }

  /** The entry "L L C" deletes all of "L L C". */
  lemma DeleteAllOnSingleSpace()
    ensures DeleteAll("L L C", ExtendedSuffixes) == ""
  {
    var s := "L L C";
    ExtendedVocabularyShape();
    ExtendedSplit();
    var front := ExtendedSuffixes[..3];
    var back := ExtendedSuffixes[4..];
    assert NoAdjacentWordChars(s);
    DeleteAllUnmatched(s, front);
    assert DeleteWord(s, "L L C") == "" by {
      assert s[0..5] == "L L C";
      assert MatchesAt(s, "L L C", 0);
    }
    DeleteAllOfEmpty(back);
    DeleteAllAppend(s, front, ["L L C"]);
    DeleteAllAppend(s, front + ["L L C"], back);
  }

  lemma CollapseWordHead(c: char, t: string)
    requires !IsSpace(c) && (t == [] || IsSpace(t[0]))
    ensures CollapseSpaces([c] + t) == [c] + CollapseSpaces(t)
  {
    var s := [c] + t;
    assert s[1..] == t;
    assert RunLength(s) == 1;
    assert s[..1] == [c];
  }

  lemma SkipSpaceHead(c: char, t: string)
    requires IsSpace(c)
    ensures SkipSpaces([c] + t) == SkipSpaces(t)
  {
    assert ([c] + t)[1..] == t;
  }

  lemma CollapseSpaceHead(x: char, t: string)
    requires IsSpace(x) && (t == [] || !IsSpace(t[0]))
    ensures CollapseSpaces([x] + t) == [' '] + CollapseSpaces(t)
  {
    SkipSpaceHead(x, t);
  }

  lemma CollapseOne(c: char)
    requires !IsSpace(c)
    ensures CollapseSpaces([c]) == [c]
  {
    CollapseWordHead(c, []);
    assert [c] + [] == [c];
  }

  lemma CollapseSpaceTwice(x: char, t: string)
    requires IsSpace(x) && t != [] && IsSpace(t[0])
    ensures CollapseSpaces([x] + t) == CollapseSpaces(t)
  {
    SkipSpaceHead(x, t);
  }

  lemma CollapseSpaceLetter(c: char)
    requires !IsSpace(c)
    ensures CollapseSpaces([' '] + [c]) == [' ', c]
  {
    CollapseOne(c);
    CollapseSpaceHead(' ', [c]);
  }

  lemma CollapseGap2(c: char)
    requires !IsSpace(c)
    ensures CollapseSpaces([' ', ' ', c]) == [' ', c]
  {
    var t := [' '] + [c];
    CollapseSpaceLetter(c);
    CollapseSpaceTwice(' ', t);
    assert [' '] + t == [' ', ' ', c];
  }

  lemma CollapseGap1(b: char, c: char)
    requires !IsSpace(b) && !IsSpace(c)
    ensures CollapseSpaces([b, ' ', ' ', c]) == [b, ' ', c]
  {
    assert [b, ' ', ' ', c] == [b] + [' ', ' ', c];
    CollapseWordHead(b, [' ', ' ', c]);
    CollapseGap2(c);
  }

  lemma SpacedLetters(a: char, b: char, c: char)
    ensures [a] + ([' '] + [b, ' ', c]) == [a, ' ', b, ' ', c]
  {
  }

  /** `re.sub(r'\s+', ' ', _)` on three one-letter tokens, the second gap two wide. */
  lemma CollapseThreeLetters(a: char, b: char, c: char)
    requires !IsSpace(a) && !IsSpace(b) && !IsSpace(c)
    ensures CollapseSpaces([a, ' ', b, ' ', ' ', c]) == [a, ' ', b, ' ', c]
  {
    var t := [b, ' ', ' ', c];
    var u := [' '] + t;
    assert [a, ' ', b, ' ', ' ', c] == [a] + u;
    CollapseGap1(b, c);
    CollapseSpaceHead(' ', t);
    CollapseWordHead(a, u);
    SpacedLetters(a, b, c);
  }

  lemma SpelledOut()
    ensures ['L', ' ', 'L', ' ', ' ', 'C'] == "L L  C"
    ensures ['L', ' ', 'L', ' ', 'C'] == "L L C"
  {
  }

  /** The extended normalizer on a present name, from the outcomes of its steps. */
  lemma ExtendedSteps(s: string, d: string, c: string)
    requires s != [] && Prepare(s) == s && DeleteAll(s, ExtendedSuffixes) == d
    requires CollapseSpaces(d) == c && Strip(c) == c
    ensures NormalizeNameExtended(Some(s)) == c
  {
  }

  /** `re.sub(r'\s+', ' ', "L L  C")` */
  lemma CollapseDoubleSpace()
    ensures CollapseSpaces("L L  C") == "L L C"
  {
    SpelledOut();
    CollapseThreeLetters('L', 'L', 'C');
  }

  lemma StrippedSingleSpace()
    ensures Strip("L L C") == "L L C"
  {
    var t := "L L C";
    assert t[0] == 'L' && t[|t| - 1] == 'C';
    StripOfStripped(t);
  }

  /** "L L  C", with two spaces, normalizes to "L L C": no entry matches it. */
  lemma ExtendedOnDoubleSpace()
    ensures NormalizeNameExtended(Some("L L  C")) == "L L C"
  {
    PrepareKeeps("L L  C");
    DeleteAllOnDoubleSpace();
    CollapseDoubleSpace();
    StrippedSingleSpace();
    ExtendedSteps("L L  C", "L L  C", "L L C");
  }

  /** "L L C" normalizes to nothing: the entry "L L C" deletes all of it. */
  lemma ExtendedOnSingleSpace()
    ensures NormalizeNameExtended(Some("L L C")) == ""
  {
    PrepareKeeps("L L C");
    DeleteAllOnSingleSpace();
    assert CollapseSpaces("") == "";
    assert Strip("") == "";
    ExtendedSteps("L L C", "", "");
  }

  /**
   * The extended normalizer is not idempotent: it applies "L L C" before
   * collapsing whitespace, so normalizing its own output can delete more.
   */
  lemma ExtendedNotIdempotent()
    ensures NormalizeNameExtended(Some("L L  C")) == "L L C"
    ensures NormalizeNameExtended(Some(NormalizeNameExtended(Some("L L  C")))) == ""
  {
    ExtendedOnDoubleSpace();
    ExtendedOnSingleSpace();
  }
}
