/**
 * scripts/importThemes.ts: collect every space-separated token of every row's Themes
 * into an insertion-ordered set, then upsert each one into the theme catalogue with a
 * display name derived from the slug, leaving themes that already exist untouched.
 */
module ImportThemes {
  import opened Wrappers
  import opened JsStrings
  import opened CsvRows

  /** The theme catalogue: display name by slug. */
  type Catalog = map<string, string>

  predicate IsAsciiUpper(c: char) {
    'A' <= c <= 'Z'
  }

  /** `toUpperCase` on one character, for the ASCII letters. */
  function UpperAscii(c: char): (u: char)
    ensures 'a' <= c <= 'z' ==> IsAsciiUpper(u) && u as int == c as int - 32
    ensures !('a' <= c <= 'z') ==> u == c
  {
    if 'a' <= c <= 'z' then (c as int - 32) as char else c
  }

  /** `replace(/([A-Z])/g, ' $1')`: a space before every ASCII capital. */
  function SpaceBeforeCapitals(s: string): (r: string)
    decreases |s|
  {
    if s == [] then []
    else (if IsAsciiUpper(s[0]) then [' ', s[0]] else [s[0]]) + SpaceBeforeCapitals(s[1..])
  }

  /**
   * The display name: the first character upper-cased, then the rest of the slug
   * with a space before each capital and surrounding whitespace trimmed.
   * The trim applies to the rest only.
   */
  function DisplayName(slug: string): string {
    if slug == [] then []
    else [UpperAscii(slug[0])] + Trim(SpaceBeforeCapitals(slug[1..]))
  }

  function RemoveSpaces(s: string): (r: string)
    ensures ' ' !in r
    ensures |r| <= |s|
    decreases |s|
  {
    if s == [] then [] else (if s[0] == ' ' then [] else [s[0]]) + RemoveSpaces(s[1..])
  }

  lemma {:induction false} RemoveSpacesAppend(a: string, b: string)
    ensures RemoveSpaces(a + b) == RemoveSpaces(a) + RemoveSpaces(b)
    decreases |a|
  {
    if a == [] {
      assert a + b == b;
    } else {
      assert (a + b)[1..] == a[1..] + b;
      RemoveSpacesAppend(a[1..], b);
    }
  }

  lemma {:induction false} RemoveSpacesAllSpaces(s: string)
    requires forall k :: 0 <= k < |s| ==> s[k] == ' '
    ensures RemoveSpaces(s) == []
    decreases |s|
  {
    if s != [] {
      RemoveSpacesAllSpaces(s[1..]);
    }
  }

  lemma {:induction false} RemoveSpacesNone(s: string)
    requires ' ' !in s
    ensures RemoveSpaces(s) == s
    decreases |s|
  {
    if s != [] {
      RemoveSpacesNone(s[1..]);
    }
  }

  /** Inserting spaces adds no whitespace but spaces, and removing them undoes it. */
  lemma SpaceBeforeCapitalsSpaces(s: string)
    ensures RemoveSpaces(SpaceBeforeCapitals(s)) == RemoveSpaces(s)
    ensures (forall k :: 0 <= k < |s| ==> !IsWhitespace(s[k])) ==> OnlySpaceBlanks(SpaceBeforeCapitals(s))
  {
    SpaceBeforeCapitalsRemove(s);
    if forall k :: 0 <= k < |s| ==> !IsWhitespace(s[k]) {
      SpaceBeforeCapitalsBlanks(s);
    }
  }

  lemma {:induction false} SpaceBeforeCapitalsRemove(s: string)
    ensures RemoveSpaces(SpaceBeforeCapitals(s)) == RemoveSpaces(s)
    decreases |s|
  {
    if s != [] {
      SpaceBeforeCapitalsRemove(s[1..]);
      var head := if IsAsciiUpper(s[0]) then [' ', s[0]] else [s[0]];
      RemoveSpacesAppend(head, SpaceBeforeCapitals(s[1..]));
      RemoveSpacesAppend([s[0]], s[1..]);
      assert s == [s[0]] + s[1..];
      if IsAsciiUpper(s[0]) {
        assert head == [' '] + [s[0]];
        RemoveSpacesAppend([' '], [s[0]]);
      }
    }
  }

  lemma {:induction false} SpaceBeforeCapitalsBlanks(s: string)
    requires forall k :: 0 <= k < |s| ==> !IsWhitespace(s[k])
    ensures OnlySpaceBlanks(SpaceBeforeCapitals(s))
    decreases |s|
  {
    if s != [] {
      SpaceBeforeCapitalsBlanks(s[1..]);
      var head := if IsAsciiUpper(s[0]) then [' ', s[0]] else [s[0]];
      var r := SpaceBeforeCapitals(s);
      assert r == head + SpaceBeforeCapitals(s[1..]);
      forall k | 0 <= k < |r| && IsWhitespace(r[k]) ensures r[k] == ' ' {
        if k >= |head| {
          assert r[k] == SpaceBeforeCapitals(s[1..])[k - |head|];
        }
      }
    }
  }

  /** Whitespace of `s` other than spaces. */
  predicate OnlySpaceBlanks(s: string) {
    forall k :: 0 <= k < |s| && IsWhitespace(s[k]) ==> s[k] == ' '
  }

  lemma TrimStartRemovesSpaces(s: string)
    requires OnlySpaceBlanks(s)
    ensures OnlySpaceBlanks(TrimStart(s)) && RemoveSpaces(TrimStart(s)) == RemoveSpaces(s)
  {
    var t := TrimStart(s);
    var j := |s| - |t|;
    assert s == s[..j] + t;
    RemoveSpacesAppend(s[..j], t);
    RemoveSpacesAllSpaces(s[..j]);
  }

  lemma TrimEndRemovesSpaces(t: string)
    requires OnlySpaceBlanks(t)
    ensures RemoveSpaces(TrimEnd(t)) == RemoveSpaces(t)
  {
    var r := TrimEnd(t);
    assert t == r + t[|r|..];
    RemoveSpacesAppend(r, t[|r|..]);
    RemoveSpacesAllSpaces(t[|r|..]);
  }

  /** Trimming a string whose only whitespace is spaces removes nothing but spaces. */
  lemma TrimRemovesSpaces(s: string)
    requires OnlySpaceBlanks(s)
    ensures RemoveSpaces(Trim(s)) == RemoveSpaces(s)
  {
    TrimStartRemovesSpaces(s);
    TrimEndRemovesSpaces(TrimStart(s));
  }

  /**
   * For a slug without whitespace, the name differs from the slug only by its first
   * character being upper-cased and by spaces; the empty slug has the empty name.
   */
  lemma DisplayNameSpaces(slug: string)
    requires forall k :: 0 <= k < |slug| ==> !IsWhitespace(slug[k])
    ensures slug == [] ==> DisplayName(slug) == []
    ensures slug != [] ==> RemoveSpaces(DisplayName(slug)) == [UpperAscii(slug[0])] + slug[1..]
  {
    if slug != [] {
      var tail := SpaceBeforeCapitals(slug[1..]);
      SpaceBeforeCapitalsSpaces(slug[1..]);
      TrimRemovesSpaces(tail);
      assert ' ' !in slug[1..] by {
        forall k | 0 <= k < |slug[1..]| ensures slug[1..][k] != ' ' {
          assert slug[1..][k] == slug[k + 1];
        }
      }
      RemoveSpacesNone(slug[1..]);
      assert UpperAscii(slug[0]) != ' ';
      RemoveSpacesAppend([UpperAscii(slug[0])], Trim(tail));
    }
  }

  lemma {:induction false} SpaceBeforeCapitalsAppend(a: string, b: string)
    ensures SpaceBeforeCapitals(a + b) == SpaceBeforeCapitals(a) + SpaceBeforeCapitals(b)
    decreases |a|
  {
    if a == [] {
      assert a + b == b;
    } else {
      assert (a + b)[0] == a[0] && (a + b)[1..] == a[1..] + b;
      SpaceBeforeCapitalsAppend(a[1..], b);
    }
  }

  lemma {:induction false} SpaceBeforeCapitalsLower(s: string)
    requires forall k :: 0 <= k < |s| ==> !IsAsciiUpper(s[k])
    ensures SpaceBeforeCapitals(s) == s
    decreases |s|
  {
    if s != [] {
      SpaceBeforeCapitalsLower(s[1..]);
      assert s == [s[0]] + s[1..];
    }
  }

  /** One capital followed by lower-case letters gains one space in front. */
  lemma SpaceBeforeWord(c: char, rest: string)
    requires IsAsciiUpper(c) && forall k :: 0 <= k < |rest| ==> !IsAsciiUpper(rest[k])
    ensures SpaceBeforeCapitals([c] + rest) == [' ', c] + rest
  {
    SpaceBeforeCapitalsLower(rest);
    assert ([c] + rest)[1..] == rest;
  }

  /** Lower-case text, a capital, and more lower-case text: one space goes in before the capital. */
  lemma SpacedTwoWords(a: string, c: char, b: string)
    requires forall k :: 0 <= k < |a| ==> !IsAsciiUpper(a[k])
    requires IsAsciiUpper(c) && forall k :: 0 <= k < |b| ==> !IsAsciiUpper(b[k])
    ensures SpaceBeforeCapitals(a + [c] + b) == a + [' ', c] + b
  {
    SpaceBeforeCapitalsAppend(a, [c] + b);
    assert a + [c] + b == a + ([c] + b);
    SpaceBeforeCapitalsLower(a);
    SpaceBeforeWord(c, b);
  }

  lemma SpacedAdvancedPawn()
    ensures SpaceBeforeCapitals("dvancedPawn") == "dvanced Pawn"
  {
    var a, b := "dvanced", "awn";
    assert forall k :: 0 <= k < |a| ==> !IsAsciiUpper(a[k]);
    assert forall k :: 0 <= k < |b| ==> !IsAsciiUpper(b[k]);
    assert a + ['P'] + b == "dvancedPawn";
    assert a + [' ', 'P'] + b == "dvanced Pawn";
    SpacedTwoWords(a, 'P', b);
  }

  lemma SpacedRayAttack()
    ensures SpaceBeforeCapitals("RayAttack") == " Ray Attack"
  {
    var ray, attack := "Ray", "Attack";
    assert ray == ['R'] + "ay";
    assert attack == ['A'] + "ttack";
    SpaceBeforeWord('R', "ay");
    SpaceBeforeWord('A', "ttack");
    SpaceBeforeCapitalsAppend(ray, attack);
    assert ray + attack == "RayAttack";
    assert ([' ', 'R'] + "ay") + ([' ', 'A'] + "ttack") == " Ray Attack";
  }

  /**
   * For a slug without whitespace, trimming only ever removes the space put before a
   * capital in second position: the name is the upper-cased first character followed by
   * the spaced tail, less that one leading space.
   */
  lemma DisplayNameShape(slug: string)
    requires |slug| >= 1 && forall k :: 0 <= k < |slug| ==> !IsWhitespace(slug[k])
    ensures var spaced := SpaceBeforeCapitals(slug[1..]);
            DisplayName(slug) == [UpperAscii(slug[0])] + (if |slug| >= 2 && IsAsciiUpper(slug[1]) then spaced[1..] else spaced)
  {
    var tail := slug[1..];
    var spaced := SpaceBeforeCapitals(tail);
    SpacedEnds(tail);
    if tail != [] && IsAsciiUpper(tail[0]) {
      assert spaced == [' '] + spaced[1..];
      TrimLeadingSpace(spaced[1..]);
    } else {
      TrimTrimmed(spaced);
    }
  }

  lemma TrimLeadingSpace(w: string)
    requires w == [] || (!IsWhitespace(w[0]) && !IsWhitespace(w[|w| - 1]))
    ensures Trim([' '] + w) == w
  {
    assert ([' '] + w)[1..] == w;
    TrimTrimmed(w);
  }

  /**
   * Spacing a whitespace-free string: the result is empty only for the empty string,
   * ends with the same character, and starts with that character, or with a space
   * followed by it when it is a capital.
   */
  lemma {:induction false} SpacedEnds(s: string)
    requires forall k :: 0 <= k < |s| ==> !IsWhitespace(s[k])
    ensures var r := SpaceBeforeCapitals(s);
            && (s == [] <==> r == [])
            && (s != [] ==> r[|r| - 1] == s[|s| - 1])
            && (s != [] && !IsAsciiUpper(s[0]) ==> r[0] == s[0])
            && (s != [] && IsAsciiUpper(s[0]) ==> |r| >= 2 && r[0] == ' ' && r[1] == s[0])
    decreases |s|
  {
    if s != [] {
      SpacedEnds(s[1..]);
    }
  }

  lemma SpacedRayAttackTail()
    ensures SpaceBeforeCapitals("RayAttack")[1..] == "Ray Attack"
  {
    SpacedRayAttack();
    assert " Ray Attack"[1..] == "Ray Attack";
  }

  /** A string literal taken apart at its first character. */
  lemma {:induction false} FirstAndRest(name: string, c: char, rest: string)
    requires |name| >= 1 && name[0] == c && name[1..] == rest
    ensures [c] + rest == name
  {
  }

  lemma AdvancedPawnParts(slug: string)
    requires slug == "advancedPawn"
    ensures DisplayName(slug) == ['A'] + "dvanced Pawn"
  {
    var rest := "dvancedPawn";
    FirstAndRest(slug, 'a', rest);
    assert slug[1..] == rest && rest[0] == 'd';
    DisplayNameShape(slug);
    SpacedAdvancedPawn();
    assert UpperAscii('a') == 'A';
  }

  lemma XRayAttackParts(slug: string)
    requires slug == "xRayAttack"
    ensures DisplayName(slug) == ['X'] + "Ray Attack"
  {
    var rest := "RayAttack";
    FirstAndRest(slug, 'x', rest);
    assert slug[1..] == rest && rest[0] == 'R';
    DisplayNameShape(slug);
    SpacedRayAttackTail();
    assert UpperAscii('x') == 'X';
  }

  /** `advancedPawn` is shown as `Advanced Pawn`. */
  lemma DisplayNameAdvancedPawn(slug: string)
    requires slug == "advancedPawn"
    ensures DisplayName(slug) == "Advanced Pawn"
  {
    AdvancedPawnParts(slug);
    FirstAndRest("Advanced Pawn", 'A', "dvanced Pawn");
  }

  /** `xRayAttack` is shown as `XRay Attack`: the space put before the capital in second position is trimmed away. */
  lemma DisplayNameXRayAttack(slug: string)
    requires slug == "xRayAttack"
    ensures DisplayName(slug) == "XRay Attack"
  {
    XRayAttackParts(slug);
    FirstAndRest("XRay Attack", 'X', "Ray Attack");
  }

  /** No element occurs twice. */
  predicate Distinct(xs: seq<string>) {
    forall j, k :: 0 <= j < k < |xs| ==> xs[j] != xs[k]
  }

  /** `set.add(x)` on a set that remembers insertion order. */
  function Add(seen: seq<string>, x: string): seq<string> {
    if x in seen then seen else seen + [x]
  }

  function AddAll(seen: seq<string>, xs: seq<string>): seq<string> {
    if xs == [] then seen else Add(AddAll(seen, xs[..|xs| - 1]), xs[|xs| - 1])
  }

  /** The distinct elements of `xs`, in the order they first occur. */
  function Dedup(xs: seq<string>): seq<string> {
    AddAll([], xs)
  }

  /** Adding keeps what was there as a prefix, keeps it duplicate-free, and adds exactly the new elements. */
  lemma {:induction false} AddAllSpec(seen: seq<string>, xs: seq<string>)
    requires Distinct(seen)
    ensures var r := AddAll(seen, xs);
            Distinct(r) && |seen| <= |r| && r[..|seen|] == seen && forall t :: t in r <==> t in seen || t in xs
  {
    if xs != [] {
      var init := xs[..|xs| - 1];
      AddAllSpec(seen, init);
      var prev := AddAll(seen, init);
      assert forall t :: t in xs <==> t in init || t == xs[|xs| - 1];
      assert (prev + [xs[|xs| - 1]])[..|seen|] == prev[..|seen|];
    }
  }

  lemma {:induction false} AddAllAppend(seen: seq<string>, xs: seq<string>, ys: seq<string>)
    ensures AddAll(seen, xs + ys) == AddAll(AddAll(seen, xs), ys)
    decreases |ys|
  {
    if ys == [] {
      assert xs + ys == xs;
    } else {
      assert (xs + ys)[..|xs + ys| - 1] == xs + ys[..|ys| - 1];
      AddAllAppend(seen, xs, ys[..|ys| - 1]);
    }
  }

  /** The position of the first occurrence of `x` in `xs`. */
  function FirstIndex(xs: seq<string>, x: string): (i: nat)
    requires x in xs
    ensures i < |xs| && xs[i] == x && x !in xs[..i]
  {
    if xs[0] == x then 0 else 1 + FirstIndex(xs[1..], x)
  }

  lemma {:induction false} FirstIndexAppend(xs: seq<string>, y: string, x: string)
    requires x in xs + [y]
    ensures x in xs ==> FirstIndex(xs + [y], x) == FirstIndex(xs, x)
    ensures x !in xs ==> FirstIndex(xs + [y], x) == |xs|
  {
    var i := FirstIndex(xs + [y], x);
    if x in xs {
      var j := FirstIndex(xs, x);
      FirstIndexMin(xs + [y], x, j);
      assert xs[i] == x;
      FirstIndexMin(xs, x, i);
    }
  }

  lemma {:induction false} FirstIndexMin(xs: seq<string>, x: string, k: nat)
    requires k < |xs| && xs[k] == x
    ensures FirstIndex(xs, x) <= k
  {
    if xs[0] != x {
      FirstIndexMin(xs[1..], x, k - 1);
    }
  }

  /**
   * `Dedup` is a duplicate-free list of exactly the elements of `xs`, ordered by first
   * occurrence in `xs`.
   */
  lemma DedupSpec(xs: seq<string>)
    ensures var r := Dedup(xs);
            && Distinct(r) && (forall t :: t in r <==> t in xs)
            && forall j, k :: 0 <= j < k < |r| ==> FirstIndex(xs, r[j]) < FirstIndex(xs, r[k])
  {
    AddAllSpec([], xs);
    DedupOrder(xs);
  }

  lemma {:induction false} DedupOrder(xs: seq<string>)
    ensures var r := Dedup(xs);
            forall j, k :: 0 <= j < k < |r| ==> r[j] in xs && r[k] in xs && FirstIndex(xs, r[j]) < FirstIndex(xs, r[k])
  {
    if xs != [] {
      var init, x := xs[..|xs| - 1], xs[|xs| - 1];
      AddAllSpec([], init);
      AddAllSpec([], xs);
      DedupOrder(init);
      assert xs == init + [x];
      var prev := Dedup(init);
      var r := Dedup(xs);
      assert r == Add(prev, x);
      forall t | t in r ensures FirstIndex(xs, t) == (if t in init then FirstIndex(init, t) else |init|) {
        FirstIndexAppend(init, x, t);
      }
      forall j, k | 0 <= j < k < |r| ensures r[j] in xs && r[k] in xs && FirstIndex(xs, r[j]) < FirstIndex(xs, r[k]) {
        if x !in prev && k == |prev| {
          assert r[j] == prev[j];
          assert r[j] in init;
        } else {
          assert r[j] == prev[j] && r[k] == prev[k];
        }
      }
    }
  }

  /**
   * The vocabulary pass over the rows: every token of `Themes.split(' ')`, empty ones
   * included. A row without a Themes field stops the pass with an error naming that row.
   */
  function Vocabulary(rows: seq<Row>): Result<seq<string>, nat> {
    if rows == [] then Success([])
    else
      var prev := Vocabulary(rows[..|rows| - 1]);
      var last := rows[|rows| - 1];
      if prev.Failure? then prev
      else if last.themes.None? then Failure(|rows| - 1)
      else Success(AddAll(prev.value, Split(last.themes.value, ' ')))
  }

  /** Every row's tokens, one row after another. */
  function Tokens(rows: seq<Row>): seq<string> {
    if rows == [] then []
    else
      var last := rows[|rows| - 1];
      Tokens(rows[..|rows| - 1]) + (if last.themes.Some? then Split(last.themes.value, ' ') else [])
  }

  /** The pass fails exactly when some row lacks Themes, and then names the first such row. */
  lemma {:induction false} VocabularyFailure(rows: seq<Row>)
    ensures Vocabulary(rows).Failure? <==> exists i :: 0 <= i < |rows| && rows[i].themes.None?
    ensures Vocabulary(rows).Failure? ==>
              var e := Vocabulary(rows).error;
              e < |rows| && rows[e].themes.None? && forall j :: 0 <= j < e ==> rows[j].themes.Some?
  {
    if rows != [] {
      var init := rows[..|rows| - 1];
      VocabularyFailure(init);
      assert forall i :: 0 <= i < |init| ==> init[i] == rows[i];
    }
  }

  /** A successful pass yields the distinct tokens of all rows, in first-seen order. */
  lemma {:induction false} VocabularyIsDedup(rows: seq<Row>)
    requires Vocabulary(rows).Success?
    ensures Vocabulary(rows).value == Dedup(Tokens(rows))
  {
    if rows != [] {
      var init := rows[..|rows| - 1];
      VocabularyIsDedup(init);
      AddAllAppend([], Tokens(init), Split(rows[|rows| - 1].themes.value, ' '));
    }
  }

  lemma {:induction false} TokensOf(rows: seq<Row>, t: string)
    ensures t in Tokens(rows) <==> exists i :: 0 <= i < |rows| && rows[i].themes.Some? && t in Split(rows[i].themes.value, ' ')
  {
    if rows != [] {
      var init := rows[..|rows| - 1];
      TokensOf(init, t);
      assert forall i :: 0 <= i < |init| ==> init[i] == rows[i];
    }
  }

  /**
   * The vocabulary of a successful pass: no slug twice, a slug exactly when it is a
   * token of some row, and slugs ordered by where they first occur.
   */
  lemma VocabularySpec(rows: seq<Row>)
    requires Vocabulary(rows).Success?
    ensures var v := Vocabulary(rows).value;
            && Distinct(v)
            && (forall t :: t in v <==> t in Tokens(rows))
            && (forall t :: t in v <==> exists i :: 0 <= i < |rows| && rows[i].themes.Some? && t in Split(rows[i].themes.value, ' '))
            && forall j, k :: 0 <= j < k < |v| ==> FirstIndex(Tokens(rows), v[j]) < FirstIndex(Tokens(rows), v[k])
  {
    VocabularyIsDedup(rows);
    DedupSpec(Tokens(rows));
    forall t ensures t in Tokens(rows) <==> exists i :: 0 <= i < |rows| && rows[i].themes.Some? && t in Split(rows[i].themes.value, ' ') {
      TokensOf(rows, t);
    }
  }

  /** An empty Themes field puts the empty slug into the vocabulary: `split` gives `[""]` and nothing filters it. */
  lemma EmptyThemesGivesEmptySlug(rows: seq<Row>, i: nat)
    requires Vocabulary(rows).Success? && i < |rows| && rows[i].themes == Some("")
    ensures "" in Vocabulary(rows).value
  {
    VocabularySpec(rows);
    assert "" in Split(rows[i].themes.value, ' ');
  }

  /** `upsert` with `update: {}`: an existing slug keeps its name, a new one gets the derived name. */
  function Upsert(catalog: Catalog, slug: string): Catalog {
    if slug in catalog then catalog else catalog[slug := DisplayName(slug)]
  }

  function SeedAll(catalog: Catalog, slugs: seq<string>): Catalog {
    if slugs == [] then catalog else Upsert(SeedAll(catalog, slugs[..|slugs| - 1]), slugs[|slugs| - 1])
  }

  lemma PrefixSnoc(xs: seq<string>, i: nat)
    requires i < |xs|
    ensures xs[..i + 1] == xs[..i] + [xs[i]]
  {
  }

  /** Seeding one more slug of a list is one more upsert. */
  lemma SeedAllStep(catalog: Catalog, slugs: seq<string>, i: nat, before: Catalog, after: Catalog)
    requires i < |slugs| && before == SeedAll(catalog, slugs[..i]) && after == Upsert(before, slugs[i])
    ensures after == SeedAll(catalog, slugs[..i + 1])
  {
    assert slugs[..i + 1][..i] == slugs[..i];
  }

  /**
   * After seeding, the catalogue holds the old slugs and every seeded slug, no other;
   * old names are untouched and every new slug has its derived name.
   */
  lemma {:induction false} SeedAllSpec(catalog: Catalog, slugs: seq<string>)
    ensures var c := SeedAll(catalog, slugs);
            && (forall t :: t in c <==> t in catalog || t in slugs)
            && (forall t :: t in catalog ==> c[t] == catalog[t])
            && (forall t :: t in c && t !in catalog ==> c[t] == DisplayName(t))
  {
    if slugs != [] {
      SeedAllSpec(catalog, slugs[..|slugs| - 1]);
      assert forall t :: t in slugs <==> t in slugs[..|slugs| - 1] || t == slugs[|slugs| - 1];
    }
  }

  lemma {:induction false} SeedAllPresent(catalog: Catalog, slugs: seq<string>)
    requires forall k :: 0 <= k < |slugs| ==> slugs[k] in catalog
    ensures SeedAll(catalog, slugs) == catalog
  {
    if slugs != [] {
      SeedAllPresent(catalog, slugs[..|slugs| - 1]);
    }
  }

  /** Seeding the same slugs twice gives the same catalogue as seeding them once. */
  lemma SeedIdempotent(catalog: Catalog, slugs: seq<string>)
    ensures SeedAll(SeedAll(catalog, slugs), slugs) == SeedAll(catalog, slugs)
  {
    SeedAllSpec(catalog, slugs);
    SeedAllPresent(SeedAll(catalog, slugs), slugs);
  }

  /**
   * The state of the script's `main`: the `allThemes` set, the theme catalogue, and
   * (for the proofs) the slugs upserted so far.
   */
  class ThemeSeeder {
    var allThemes: seq<string>
    var catalog: Catalog
    ghost var Upserts: seq<string>

    constructor (catalog0: Catalog)
      ensures allThemes == [] && catalog == catalog0 && Upserts == []
    {
      allThemes, catalog := [], catalog0;
      Upserts := [];
    }

    /** The row loop: add every token of every row to `allThemes`; a row without Themes throws. */
    method CollectThemes(rows: seq<Row>) returns (failedAt: Option<nat>)
      requires allThemes == []
      modifies this`allThemes
      ensures failedAt.None? ==> Vocabulary(rows) == Success(allThemes)
      ensures failedAt.Some? ==> Vocabulary(rows) == Failure(failedAt.value)
    {
      for i := 0 to |rows|
        invariant Vocabulary(rows[..i]) == Success(allThemes)
      {
        assert rows[..i + 1][..i] == rows[..i];
        if rows[i].themes.None? {
          failedAt := Some(i);
          FailureStays(rows, i + 1);
          return;
        }
        var themes := Split(rows[i].themes.value, ' ');
        ghost var before := allThemes;
        for j := 0 to |themes|
          invariant allThemes == AddAll(before, themes[..j])
        {
          assert themes[..j + 1][..j] == themes[..j];
          if themes[j] !in allThemes {
            allThemes := allThemes + [themes[j]];
          }
        }
        assert themes[..|themes|] == themes;
      }
      assert rows[..|rows|] == rows;
      failedAt := None;
    }

    /** A single `upsert`. */
    method UpsertTheme(slug: string)
      modifies this`catalog, this`Upserts
      ensures catalog == Upsert(old(catalog), slug) && Upserts == old(Upserts) + [slug]
    {
      if slug !in catalog {
        catalog := catalog[slug := DisplayName(slug)];
      }
      Upserts := Upserts + [slug];
    }

    /** The seeding loop over `Array.from(allThemes)`. */
    method SeedCatalog()
      modifies this`catalog, this`Upserts
      ensures catalog == SeedAll(old(catalog), allThemes) && Upserts == old(Upserts) + allThemes
    {
      ghost var catalog0, upserts0 := catalog, Upserts;
      for i := 0 to |allThemes|
        invariant catalog == SeedAll(catalog0, allThemes[..i])
        invariant Upserts == upserts0 + allThemes[..i]
      {
        ghost var before := catalog;
        UpsertTheme(allThemes[i]);
        SeedAllStep(catalog0, allThemes, i, before, catalog);
        PrefixSnoc(allThemes, i);
      }
      assert allThemes[..|allThemes|] == allThemes;
    }

    /**
     * A whole run: when every row has Themes, each vocabulary slug is upserted once, in
     * first-seen order; otherwise the run stops before seeding anything.
     */
    method Run(rows: seq<Row>) returns (ok: bool)
      requires allThemes == [] && Upserts == []
      modifies this
      ensures ok <==> Vocabulary(rows).Success?
      ensures ok ==> Upserts == Vocabulary(rows).value && catalog == SeedAll(old(catalog), Vocabulary(rows).value)
      ensures !ok ==> catalog == old(catalog) && Upserts == []
    {
      var failedAt := CollectThemes(rows);
      if failedAt.Some? {
        return false;
      }
      SeedCatalog();
      ok := true;
    }
  }

  /** Once a prefix of the rows fails, so does every longer prefix, with the same error. */
  lemma {:induction false} FailureStays(rows: seq<Row>, n: nat)
    requires n <= |rows| && Vocabulary(rows[..n]).Failure?
    ensures Vocabulary(rows) == Vocabulary(rows[..n])
    decreases |rows| - n
  {
    if n < |rows| {
      assert rows[..n + 1][..n] == rows[..n];
      FailureStays(rows, n + 1);
    } else {
      assert rows[..n] == rows;
    }
  }
}
