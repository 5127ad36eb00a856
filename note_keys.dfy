/**
 * How the storage service turns a free-text note title into an object key
 * (`ubinote/<date>/<safe title>.md`) and how it reads a display title and a
 * date folder back out of a key.
 *
 * Python's `\w` class is Unicode-aware and depends on the Unicode character
 * database, so the model takes it as a parameter `isWord`; `WordClassOk`
 * states the few facts about it that the properties rely on.
 */
module NoteKeys {
  import opened Text

  /** What every reading of `\w` satisfies: `_` is a word character; `-`, `.`, `/` and whitespace are not. */
  predicate WordClassOk(isWord: char -> bool)
  {
    && isWord('_') && !isWord('-') && !isWord('.') && !isWord('/')
    && forall c :: IsPySpace(c) ==> !isWord(c)
  }

  /** The characters `[\w\s-]` that the first substitution keeps. */
  predicate Kept(isWord: char -> bool, c: char)
  {
    isWord(c) || IsPySpace(c) || c == '-'
  }

  // ---------------------------------------------------------------------
  // Sanitisation: re.sub(r'[^\w\s-]', '', title).strip(), then re.sub(r'[\s]+', '_', ...)
  // ---------------------------------------------------------------------

  /** `re.sub(r'[^\w\s-]', '', s)`: deletes every character outside `[\w\s-]`, keeping the order of the rest. */
  function DropDisallowed(isWord: char -> bool, s: string): (r: string)
    ensures |r| <= |s|
    ensures forall k :: 0 <= k < |r| ==> Kept(isWord, r[k])
    ensures (forall k :: 0 <= k < |s| ==> Kept(isWord, s[k])) ==> r == s
  {
    if s == [] then []
    else if Kept(isWord, s[0]) then [s[0]] + DropDisallowed(isWord, s[1..])
    else DropDisallowed(isWord, s[1..])
  }

  /** The deletion works character by character: it distributes over concatenation, so the kept characters stay in order. */
  lemma {:induction false} DropDisallowedAppend(isWord: char -> bool, a: string, b: string)
    ensures DropDisallowed(isWord, a + b) == DropDisallowed(isWord, a) + DropDisallowed(isWord, b)
    decreases |a|
  {
    if a == [] {
      assert a + b == b;
    } else {
      assert (a + b)[0] == a[0];
      assert (a + b)[1..] == a[1..] + b;
      DropDisallowedAppend(isWord, a[1..], b);
      if Kept(isWord, a[0]) {
        assert [a[0]] + (DropDisallowed(isWord, a[1..]) + DropDisallowed(isWord, b))
            == ([a[0]] + DropDisallowed(isWord, a[1..])) + DropDisallowed(isWord, b);
      }
    }
  }

  /** Every character of `[\w\s-]` keeps all its occurrences, and every other character loses all of them. */
  lemma {:induction false} DropDisallowedCount(isWord: char -> bool, s: string, c: char)
    ensures multiset(DropDisallowed(isWord, s))[c] == if Kept(isWord, c) then multiset(s)[c] else 0
    decreases |s|
  {
    if s != [] {
      assert s == [s[0]] + s[1..];
      DropDisallowedCount(isWord, s[1..], c);
    }
  }

  /**
   * `re.sub(r'[\s]+', '_', s)` with `ws` as the class `\s`: each maximal run of
   * `ws` characters becomes one `_`, scanning from the left.
   */
  function CollapseRuns(ws: char -> bool, s: string): (r: string)
    ensures forall k :: 0 <= k < |r| ==> r[k] == '_' || !ws(r[k])
    decreases |s|
  {
    if s == [] then []
    else if ws(s[0]) then "_" + CollapseRuns(ws, TrimStart(ws, s[1..]))
    else [s[0]] + CollapseRuns(ws, s[1..])
  }

  /** The title after the first substitution and `strip()`, before whitespace runs are collapsed. */
  function StrippedTitle(isWord: char -> bool, title: string): string
  {
    Trim(IsPySpace, DropDisallowed(isWord, title))
  }

  /** `safe_title` of `upload_note`. */
  function SafeTitle(isWord: char -> bool, title: string): (r: string)
    requires WordClassOk(isWord)
    ensures forall k :: 0 <= k < |r| ==> (isWord(r[k]) || r[k] == '-') && !IsPySpace(r[k])
    ensures '/' !in r && '.' !in r
  {
    var t := StrippedTitle(isWord, title);
    TrimIsInfix(IsPySpace, DropDisallowed(isWord, title));
    CollapseKeepsClass(IsPySpace, c => Kept(isWord, c), t);
    CollapseRuns(IsPySpace, t)
  }

  // ---------------------------------------------------------------------
  // Properties of the sanitisation
  // ---------------------------------------------------------------------

  /** Collapsing introduces no character other than `_`: a class containing `_` and every character of `s` contains every character of the result. */
  lemma {:induction false} CollapseKeepsClass(ws: char -> bool, allowed: char -> bool, s: string)
    requires allowed('_') && forall k :: 0 <= k < |s| ==> allowed(s[k])
    ensures forall k :: 0 <= k < |CollapseRuns(ws, s)| ==> allowed(CollapseRuns(ws, s)[k])
    decreases |s|
  {
    if s != [] {
      if ws(s[0]) {
        TrimStartSuffix(ws, s[1..]);
        CollapseKeepsClass(ws, allowed, TrimStart(ws, s[1..]));
      } else {
        CollapseKeepsClass(ws, allowed, s[1..]);
      }
    }
  }

  /** A string without whitespace passes through the collapsing step unchanged. */
  lemma {:induction false} CollapseWithoutSpace(ws: char -> bool, s: string)
    requires forall k :: 0 <= k < |s| ==> !ws(s[k])
    ensures CollapseRuns(ws, s) == s
  {
    if s != [] {
      CollapseWithoutSpace(ws, s[1..]);
      assert [s[0]] + s[1..] == s;
    }
  }

  /** Leading whitespace in front of a text that ends in a non-space character is all `TrimStart` removes. */
  lemma {:induction false} TrimStartAppend(ws: char -> bool, a: string, x: string)
    requires a != [] && !ws(a[|a| - 1])
    ensures TrimStart(ws, a + x) == TrimStart(ws, a) + x
  {
    if ws(a[0]) {
      assert (a + x)[1..] == a[1..] + x;
      TrimStartAppend(ws, a[1..], x);
    }
  }

  /** A whitespace run followed by a text that does not start with whitespace trims away entirely. */
  lemma {:induction false} TrimStartRun(ws: char -> bool, w: string, b: string)
    requires forall k :: 0 <= k < |w| ==> ws(w[k])
    requires b == [] || !ws(b[0])
    ensures TrimStart(ws, w + b) == b
  {
    if w != [] {
      assert (w + b)[1..] == w[1..] + b;
      TrimStartRun(ws, w[1..], b);
    } else {
      assert w + b == b;
    }
  }

  /**
   * Each whitespace run becomes exactly one `_`: collapsing `a + w + b`, where `w`
   * is a non-empty run of whitespace not adjacent to other whitespace, is
   * collapsing `a`, then one `_`, then collapsing `b`.
   */
  lemma {:induction false} CollapseRun(ws: char -> bool, a: string, w: string, b: string)
    requires w != [] && AllSatisfy(ws, w)
    requires a == [] || !ws(a[|a| - 1])
    requires b == [] || !ws(b[0])
    ensures CollapseRuns(ws, a + w + b) == CollapseRuns(ws, a) + "_" + CollapseRuns(ws, b)
    decreases |a|, 1
  {
    if a == [] {
      CollapseRunAlone(ws, w, b);
      assert a + w + b == w + b;
    } else if ws(a[0]) {
      CollapseRunLeadingSpace(ws, a, w, b);
    } else {
      CollapseRunLeadingOther(ws, a, w, b);
    }
  }

  /** `CollapseRun` when `a` starts with whitespace: its leading run becomes `_` and the rest is collapsed as before. */
  lemma {:induction false} CollapseRunLeadingSpace(ws: char -> bool, a: string, w: string, b: string)
    requires w != [] && AllSatisfy(ws, w)
    requires a != [] && ws(a[0]) && !ws(a[|a| - 1])
    requires b == [] || !ws(b[0])
    ensures CollapseRuns(ws, a + w + b) == CollapseRuns(ws, a) + "_" + CollapseRuns(ws, b)
    decreases |a|, 0
  {
    CollapseRunAfterSpace(ws, a, w, b);
    var a' := TrimStart(ws, a[1..]);
    TrimStartKeepsLast(ws, a[1..]);
    CollapseRun(ws, a', w, b);
    Regroup("_", CollapseRuns(ws, a'), CollapseRuns(ws, b));
  }

  /** `CollapseRun` when `a` starts with a non-space character, which is copied. */
  lemma {:induction false} CollapseRunLeadingOther(ws: char -> bool, a: string, w: string, b: string)
    requires w != [] && AllSatisfy(ws, w)
    requires a != [] && !ws(a[0]) && !ws(a[|a| - 1])
    requires b == [] || !ws(b[0])
    ensures CollapseRuns(ws, a + w + b) == CollapseRuns(ws, a) + "_" + CollapseRuns(ws, b)
    decreases |a|, 0
  {
    CollapseRunAfterOther(ws, a, w, b);
    CollapseRun(ws, a[1..], w, b);
    Regroup([a[0]], CollapseRuns(ws, a[1..]), CollapseRuns(ws, b));
  }

  /** Re-associates the pieces of a collapsed text. */
  lemma Regroup(p: string, x: string, y: string)
    ensures p + (x + "_" + y) == (p + x) + "_" + y
  {
  }

  /** Trimming the front of a text that ends in a non-space character keeps that last character. */
  lemma TrimStartKeepsLast(ws: char -> bool, s: string)
    requires s != [] && !ws(s[|s| - 1])
    ensures var t := TrimStart(ws, s); t != [] && |t| <= |s| && t[|t| - 1] == s[|s| - 1]
  {
    TrimStartSuffix(ws, s);
  }

  /** A non-empty whitespace run in front of a text that does not start with whitespace becomes one `_`. */
  lemma CollapseRunAlone(ws: char -> bool, w: string, b: string)
    requires w != [] && AllSatisfy(ws, w)
    requires b == [] || !ws(b[0])
    ensures CollapseRuns(ws, w + b) == "_" + CollapseRuns(ws, b)
  {
    var s := w + b;
    assert s[0] == w[0];
    assert s[1..] == w[1..] + b;
    TrimStartRun(ws, w[1..], b);
  }

  /** A leading whitespace run becomes one `_`, followed by the collapse of what comes after the run. */
  lemma {:induction false} CollapseAfterSpace(ws: char -> bool, a: string, x: string)
    requires a != [] && ws(a[0]) && !ws(a[|a| - 1])
    ensures CollapseRuns(ws, a + x) == "_" + CollapseRuns(ws, TrimStart(ws, a[1..]) + x)
  {
    var s := a + x;
    assert s[0] == a[0];
    assert s[1..] == a[1..] + x;
    TrimStartAppend(ws, a[1..], x);
  }

  /** A text that starts with whitespace collapses to `_` and the collapse of what follows its leading run. */
  lemma CollapseLeadingSpace(ws: char -> bool, s: string)
    requires s != [] && ws(s[0])
    ensures CollapseRuns(ws, s) == "_" + CollapseRuns(ws, TrimStart(ws, s[1..]))
  {
  }

  /** One unfolding of `CollapseRuns` on a text `a` that starts with whitespace, alone and followed by `w + b`. */
  lemma {:induction false} CollapseRunAfterSpace(ws: char -> bool, a: string, w: string, b: string)
    requires a != [] && ws(a[0]) && !ws(a[|a| - 1])
    ensures |a| > 1
    ensures CollapseRuns(ws, a + w + b) == "_" + CollapseRuns(ws, TrimStart(ws, a[1..]) + w + b)
    ensures CollapseRuns(ws, a) == "_" + CollapseRuns(ws, TrimStart(ws, a[1..]))
  {
    var t, x := TrimStart(ws, a[1..]), w + b;
    CollapseAfterSpace(ws, a, x);
    assert a + w + b == a + x;
    assert t + w + b == t + x;
    CollapseLeadingSpace(ws, a);
  }

  /** One unfolding of `CollapseRuns` on a text `a` that starts with a non-space character, alone and followed by `w + b`. */
  lemma {:induction false} CollapseRunAfterOther(ws: char -> bool, a: string, w: string, b: string)
    requires a != [] && !ws(a[0])
    ensures CollapseRuns(ws, a + w + b) == [a[0]] + CollapseRuns(ws, a[1..] + w + b)
    ensures CollapseRuns(ws, a) == [a[0]] + CollapseRuns(ws, a[1..])
  {
    var s := a + w + b;
    assert s[0] == a[0];
    assert s[1..] == a[1..] + w + b;
  }

  /** A text ending in a non-space character collapses to a text ending in that same character. */
  lemma {:induction false} CollapseKeepsLast(ws: char -> bool, s: string)
    requires s != [] && !ws(s[|s| - 1])
    ensures CollapseRuns(ws, s) != [] && CollapseRuns(ws, s)[|CollapseRuns(ws, s)| - 1] == s[|s| - 1]
    decreases |s|
  {
    if ws(s[0]) {
      var t := TrimStart(ws, s[1..]);
      TrimStartKeepsLast(ws, s[1..]);
      CollapseKeepsLast(ws, t);
    } else if |s| > 1 {
      CollapseKeepsLast(ws, s[1..]);
    }
  }

  /**
   * `strip()` runs before the collapsing step, so neither end of the safe title
   * is an `_` made from whitespace: its first and last characters are those of
   * the stripped title, and it is empty only when the stripped title is.
   */
  lemma SafeTitleEnds(isWord: char -> bool, title: string)
    requires WordClassOk(isWord)
    ensures var t, r := StrippedTitle(isWord, title), SafeTitle(isWord, title);
      && (r == [] <==> t == [])
      && (r != [] ==> r[0] == t[0] && r[|r| - 1] == t[|t| - 1])
  {
    var t := StrippedTitle(isWord, title);
    if t != [] {
      CollapseKeepsLast(IsPySpace, t);
    }
  }

  /** Sanitising an already sanitised title changes nothing. */
  lemma SafeTitleIdempotent(isWord: char -> bool, title: string)
    requires WordClassOk(isWord)
    ensures SafeTitle(isWord, SafeTitle(isWord, title)) == SafeTitle(isWord, title)
  {
    var r := SafeTitle(isWord, title);
    assert DropDisallowed(isWord, r) == r;
    TrimWithoutSpace(IsPySpace, r);
    CollapseWithoutSpace(IsPySpace, r);
  }

  /** "-_-" is already safe. */
  lemma SafeUnderscoreTitle(isWord: char -> bool)
    requires WordClassOk(isWord)
    ensures SafeTitle(isWord, "-_-") == "-_-"
  {
    var s := "-_-";
    assert forall k :: 0 <= k < |s| ==> s[k] == '-' || s[k] == '_';
    assert forall k :: 0 <= k < |s| ==> !IsPySpace(s[k]);
    assert DropDisallowed(isWord, s) == s;
    TrimWithoutSpace(IsPySpace, s);
    CollapseWithoutSpace(IsPySpace, s);
  }

  /** The space of "- -" survives the first substitution and the strip, then becomes `_`. */
  lemma SafeSpaceTitle(isWord: char -> bool)
    requires WordClassOk(isWord)
    ensures SafeTitle(isWord, "- -") == "-_-"
  {
    var s := "- -";
    assert forall k :: 0 <= k < |s| ==> s[k] == '-' || s[k] == ' ';
    assert DropDisallowed(isWord, s) == s;
    assert s[1..] == " -" && s[..|s| - 1] == "- ";
    assert TrimStart(IsPySpace, s) == s;
    assert TrimEnd(IsPySpace, s) == s;
    assert StrippedTitle(isWord, s) == s;
    assert " -"[1..] == "-";
    assert TrimStart(IsPySpace, "-") == "-";
    assert CollapseRuns(IsPySpace, "-") == "-";
    assert CollapseRuns(IsPySpace, " -") == "_-";
    assert CollapseRuns(IsPySpace, s) == "-" + "_-";
  }

  /** A space and an underscore in the same place give the same safe title, so such uploads share a key. */
  lemma SpaceAndUnderscoreCollide(isWord: char -> bool)
    requires WordClassOk(isWord)
    ensures SafeTitle(isWord, "- -") == SafeTitle(isWord, "-_-") == "-_-"
  {
    SafeUnderscoreTitle(isWord);
    SafeSpaceTitle(isWord);
  }

  // ---------------------------------------------------------------------
  // Keys
  // ---------------------------------------------------------------------

  /** `f"ubinote/{date_folder}/{safe_title}.md"`. */
  function NoteKey(dateFolder: string, safe: string): (key: string)
    ensures StartsWith(key, "ubinote/") && EndsWith(key, ".md")
  {
    var key := "ubinote/" + dateFolder + "/" + safe + ".md";
    ConcatEnds("ubinote/", dateFolder + "/" + safe + ".md");
    assert key == "ubinote/" + (dateFolder + "/" + safe + ".md");
    ConcatEnds("ubinote/" + dateFolder + "/" + safe, ".md");
    key
  }

  /** The key `upload_note` stores a note with the given title under, on the given date. */
  function UploadKey(isWord: char -> bool, dateFolder: string, title: string): string
    requires WordClassOk(isWord)
  {
    NoteKey(dateFolder, SafeTitle(isWord, title))
  }

  /** `key.endswith('.md')`: the keys the listing keeps. */
  predicate IsMarkdownKey(key: string)
  {
    EndsWith(key, ".md")
  }

  /** `key.split('/')[-1]`. */
  function LastSegment(key: string): (r: string)
    ensures '/' !in r
  {
    var parts := Split(key, '/');
    parts[|parts| - 1]
  }

  /** `key.split('/')[-1].replace('.md', '').replace('_', ' ')`. */
  function DisplayTitle(key: string): (r: string)
    ensures '_' !in r && '/' !in r
  {
    var base := ReplaceAll(LastSegment(key), ".md", "");
    ReplaceAllKeepsOut(LastSegment(key), ".md", "", '/');
    ReplaceChar(base, '_', ' ')
  }

  /** Replacing with the empty string introduces no character that was absent. */
  lemma {:induction false} ReplaceAllKeepsOut(s: string, pat: string, rep: string, c: char)
    requires pat != [] && c !in s && c !in rep
    ensures c !in ReplaceAll(s, pat, rep)
    decreases |s|
  {
    if |s| >= |pat| {
      if s[..|pat|] == pat {
        ReplaceAllKeepsOut(s[|pat|..], pat, rep, c);
      } else {
        ReplaceAllKeepsOut(s[1..], pat, rep, c);
      }
    }
  }

  /** `path_parts[1] if len(path_parts) > 1 else 'unknown'`. */
  function DateFolderOf(key: string): (r: string)
    ensures '/' !in key ==> r == "unknown"
    ensures '/' in key ==> '/' !in r
  {
    var parts := Split(key, '/');
    SplitCount(key, '/');
    if |parts| > 1 then parts[1] else "unknown"
  }

  /** A key built from a date folder and a safe title splits on `/` into exactly those three pieces. */
  lemma NoteKeyPieces(dateFolder: string, safe: string)
    requires '/' !in dateFolder && '/' !in safe
    ensures Split(NoteKey(dateFolder, safe), '/') == ["ubinote", dateFolder, safe + ".md"]
  {
    var parts := ["ubinote", dateFolder, safe + ".md"];
    assert '/' !in safe + ".md";
    assert forall i :: 0 <= i < |parts| ==> '/' !in parts[i];
    assert Join(parts[2..], '/') == safe + ".md";
    assert Join(parts[1..], '/') == dateFolder + "/" + (safe + ".md");
    assert Join(parts, '/') == "ubinote" + "/" + (dateFolder + "/" + (safe + ".md"));
    assert Join(parts, '/') == NoteKey(dateFolder, safe);
    SplitJoin(parts, '/');
  }

  /**
   * Reading back a key built from a date folder and a safe title: it is a
   * markdown key under `ubinote/`, its date folder is the one it was built
   * with, and its display title is the safe title with `_` shown as spaces.
   */
  lemma NoteKeyParts(dateFolder: string, safe: string)
    requires '/' !in dateFolder && '/' !in safe && '.' !in safe
    ensures var key := NoteKey(dateFolder, safe);
      && IsMarkdownKey(key)
      && StartsWith(key, "ubinote/")
      && DateFolderOf(key) == dateFolder
      && DisplayTitle(key) == ReplaceChar(safe, '_', ' ')
  {
    var key := NoteKey(dateFolder, safe);
    NoteKeyPieces(dateFolder, safe);
    assert LastSegment(key) == safe + ".md";
    RemoveTrailingPattern(safe, ".md");
  }

  /**
   * Reading a key built by `upload_note` back: it is a markdown key, its date
   * folder is the one it was built with, and its display title is the safe
   * title with every `_` shown as a space.
   */
  lemma UploadKeyRoundTrip(isWord: char -> bool, dateFolder: string, title: string)
    requires WordClassOk(isWord)
    requires '/' !in dateFolder
    ensures var key := UploadKey(isWord, dateFolder, title);
      && IsMarkdownKey(key)
      && StartsWith(key, "ubinote/")
      && DateFolderOf(key) == dateFolder
      && DisplayTitle(key) == ReplaceChar(SafeTitle(isWord, title), '_', ' ')
  {
    NoteKeyParts(dateFolder, SafeTitle(isWord, title));
  }
}
