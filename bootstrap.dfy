/**
 * The PHPUnit bootstrap's two computations: the default tests directory, and
 * the filter that forces the plugins named in `WP_TEST_ACTIVATED_PLUGINS`
 * into the active-plugins list.
 */
module TestBootstrap {
  import opened Wrappers

  // ---------------------------------------------------------------------------
  // Character classes and trimming
  // ---------------------------------------------------------------------------

  /** PCRE's `\s` outside UTF mode: space, tab, line feed, vertical tab, form feed, carriage return. */
  predicate IsSpace(c: char) {
    c == ' ' || 9 <= c as int <= 13
  }

  /** The character list `'/\\'` given to `rtrim`: a slash or a backslash. */
  predicate IsDirSeparator(c: char) {
    c == '/' || c == '\\'
  }

  /** `s` without its longest suffix of `strip` characters. */
  function DropTrailing(s: string, strip: char -> bool): (r: string)
    ensures r <= s
    ensures forall k | |r| <= k < |s| :: strip(s[k])
    ensures r == [] || !strip(r[|r| - 1])
    decreases |s|
  {
    if s != [] && strip(s[|s| - 1]) then DropTrailing(s[..|s| - 1], strip) else s
  }

  /** `s` without its longest prefix of `strip` characters. */
  function DropLeading(s: string, strip: char -> bool): (r: string)
    ensures |r| <= |s| && r == s[|s| - |r|..]
    ensures forall k | 0 <= k < |s| - |r| :: strip(s[k])
    ensures r == [] || !strip(r[0])
    decreases |s|
  {
    if s != [] && strip(s[0]) then DropLeading(s[1..], strip) else s
  }

  /** Trimming twice trims no more than trimming once. */
  lemma DropTrailingIdempotent(s: string, strip: char -> bool)
    ensures DropTrailing(DropTrailing(s, strip), strip) == DropTrailing(s, strip)
  {
    var r := DropTrailing(s, strip);
    assert r == [] || !strip(r[|r| - 1]);
  }

  // ---------------------------------------------------------------------------
  // Default tests directory
  // ---------------------------------------------------------------------------

  const TestsSubdirectory := "/wordpress-tests"

  /** PHP truthiness of what `getenv` returns: `false` (unset), `""` and `"0"` are falsy. */
  predicate IsTruthy(value: Option<string>) {
    value.Some? && value.value != "" && value.value != "0"
  }

  /**
   * The tests directory: the `WP_TESTS_DIR` environment value when truthy,
   * otherwise the temporary directory without its trailing slashes and
   * backslashes, followed by `/wordpress-tests`.
   */
  method TestsDir(environment: Option<string>, tempDir: string) returns (testsDir: string)
    ensures IsTruthy(environment) ==> testsDir == environment.value
    ensures !IsTruthy(environment) ==> (
      && |testsDir| >= |TestsSubdirectory|
      && var base := testsDir[..|testsDir| - |TestsSubdirectory|];
      && testsDir == base + TestsSubdirectory
      && base <= tempDir
      && (forall k | |base| <= k < |tempDir| :: IsDirSeparator(tempDir[k]))
      && (base == [] || !IsDirSeparator(base[|base| - 1])))
  {
    var dir := environment;
    if !IsTruthy(dir) {
      dir := Some(DropTrailing(tempDir, IsDirSeparator) + TestsSubdirectory);
    }
    testsDir := dir.value;
  }

  // ---------------------------------------------------------------------------
  // Splitting at commas
  // ---------------------------------------------------------------------------

  function CommaCount(s: string): nat {
    if s == [] then 0 else (if s[0] == ',' then 1 else 0) + CommaCount(s[1..])
  }

  /**
   * The pieces of `s` between its commas, kept exactly. The first piece is a
   * prefix of `s` that ends at the first comma, if there is one.
   */
  function SplitAtCommas(s: string): (r: seq<string>)
    ensures |r| == CommaCount(s) + 1
    ensures forall i | 0 <= i < |r| :: ',' !in r[i]
    ensures r[0] <= s
    ensures |r| > 1 ==> |r[0]| < |s| && s[|r[0]|] == ','
  {
    if s == [] then [""]
    else
      var rest := SplitAtCommas(s[1..]);
      if s[0] == ',' then [""] + rest else [[s[0]] + rest[0]] + rest[1..]
  }

  /** The pieces glued back with a comma between each two. */
  function JoinWithCommas(pieces: seq<string>): string
    requires |pieces| >= 1
  {
    if |pieces| == 1 then pieces[0] else pieces[0] + "," + JoinWithCommas(pieces[1..])
  }

  /** Splitting at commas loses nothing: joining the pieces gives the input back. */
  lemma {:induction false} JoinSplitAtCommas(s: string)
    ensures JoinWithCommas(SplitAtCommas(s)) == s
  {
    if s != [] {
      var rest := SplitAtCommas(s[1..]);
      JoinSplitAtCommas(s[1..]);
      if s[0] == ',' {
        assert SplitAtCommas(s) == [""] + rest;
        assert (([""] + rest)[1..]) == rest;
      } else {
        var r := [[s[0]] + rest[0]] + rest[1..];
        assert SplitAtCommas(s) == r;
        if |rest| == 1 {
          assert JoinWithCommas(r) == [s[0]] + rest[0];
        } else {
          assert r[1..] == rest[1..];
          assert JoinWithCommas(rest) == rest[0] + "," + JoinWithCommas(rest[1..]);
          assert JoinWithCommas(r) == ([s[0]] + rest[0]) + "," + JoinWithCommas(rest[1..]);
        }
        assert s == [s[0]] + s[1..];
      }
    }
  }

  /** `piece` is `raw` with its first `a` characters and some last ones, all whitespace, cut off. */
  ghost predicate TrimmedAt(piece: string, raw: string, a: int) {
    0 <= a <= |raw| - |piece| && raw[a..a + |piece|] == piece
    && (forall k | 0 <= k < a :: IsSpace(raw[k]))
    && (forall k | a + |piece| <= k < |raw| :: IsSpace(raw[k]))
  }

  /** `piece` is `raw` with only whitespace cut from its ends. */
  ghost predicate TrimmedOf(piece: string, raw: string) {
    exists a :: TrimmedAt(piece, raw, a)
  }

  /** Cutting whitespace off a comma-free piece leaves it comma-free. */
  lemma TrimmedKeepsNoComma(piece: string, raw: string)
    requires TrimmedOf(piece, raw) && ',' !in raw
    ensures ',' !in piece
  {
    var a :| TrimmedAt(piece, raw, a);
  }

  /** `p` with leading whitespace cut when `leading` holds and trailing whitespace cut when `trailing` holds. */
  function Trim(p: string, leading: bool, trailing: bool): (r: string)
    ensures leading ==> r == [] || !IsSpace(r[0])
    ensures trailing ==> r == [] || !IsSpace(r[|r| - 1])
    ensures !leading ==> r <= p
    ensures !trailing ==> |r| <= |p| && r == p[|p| - |r|..]
    ensures !leading && !trailing ==> r == p
  {
    var start := if leading then DropLeading(p, IsSpace) else p;
    if trailing then DropTrailing(start, IsSpace) else start
  }

  /** Cutting leading whitespace cuts only whitespace. */
  lemma DropLeadingCutsOnlySpace(p: string)
    ensures TrimmedAt(DropLeading(p, IsSpace), p, |p| - |DropLeading(p, IsSpace)|)
  {
    var start := DropLeading(p, IsSpace);
    var a := |p| - |start|;
    assert a + |start| == |p|;
    assert p[a..a + |start|] == start;
  }

  /** Cutting trailing whitespace cuts only whitespace. */
  lemma DropTrailingCutsOnlySpace(p: string)
    ensures TrimmedAt(DropTrailing(p, IsSpace), p, 0)
  {
    var piece := DropTrailing(p, IsSpace);
    assert p[0..|piece|] == piece;
  }

  /** A whitespace cut of a whitespace cut is a whitespace cut. */
  lemma TrimmedAtTrans(piece: string, middle: string, raw: string, a: int, b: int)
    requires TrimmedAt(piece, middle, b) && TrimmedAt(middle, raw, a)
    ensures TrimmedAt(piece, raw, a + b)
  {
    forall j | 0 <= j < |middle| ensures raw[a + j] == middle[j] {
      assert raw[a..a + |middle|][j] == middle[j];
    }
    assert raw[a + b..a + b + |piece|] == middle[b..b + |piece|];
    forall k | 0 <= k < a + b ensures IsSpace(raw[k]) {
      if k >= a {
        assert raw[k] == middle[k - a];
      }
    }
    forall k | a + b + |piece| <= k < |raw| ensures IsSpace(raw[k]) {
      if k < a + |middle| {
        assert raw[k] == middle[k - a];
      }
    }
  }

  /** Trimming both ends cuts only whitespace. */
  lemma TrimBothCutsOnlySpace(p: string)
    ensures TrimmedAt(Trim(p, true, true), p, |p| - |DropLeading(p, IsSpace)|)
  {
    var start := DropLeading(p, IsSpace);
    DropLeadingCutsOnlySpace(p);
    DropTrailingCutsOnlySpace(start);
    TrimmedAtTrans(DropTrailing(start, IsSpace), start, p, |p| - |start|, 0);
  }

  /** Trimming cuts only whitespace. */
  lemma TrimCutsOnlySpace(p: string, leading: bool, trailing: bool)
    ensures TrimmedOf(Trim(p, leading, trailing), p)
  {
    if leading && trailing {
      TrimBothCutsOnlySpace(p);
    } else if leading {
      DropLeadingCutsOnlySpace(p);
      assert Trim(p, leading, trailing) == DropLeading(p, IsSpace);
    } else if trailing {
      DropTrailingCutsOnlySpace(p);
      assert Trim(p, leading, trailing) == DropTrailing(p, IsSpace);
    } else {
      assert p[0..|p|] == p;
      assert TrimmedAt(p, p, 0);
    }
  }

  /**
   * `preg_split` with the pattern `\s*,\s*`: one piece per comma plus one,
   * none holding a comma. Raw piece `i` loses the whitespace after its opening
   * comma and before its closing comma; the first piece keeps its leading and
   * the last its trailing whitespace.
   */
  function SplitList(s: string): (r: seq<string>)
    ensures |r| == CommaCount(s) + 1
    ensures forall i | 0 <= i < |r| :: ',' !in r[i]
  {
    var raw := SplitAtCommas(s);
    var r := seq(|raw|, i requires 0 <= i < |raw| => Trim(raw[i], i > 0, i < |raw| - 1));
    forall i | 0 <= i < |r| ensures ',' !in r[i] {
      TrimCutsOnlySpace(raw[i], i > 0, i < |raw| - 1);
      TrimmedKeepsNoComma(r[i], raw[i]);
    }
    r
  }

  /**
   * Piece `i` of the split has no whitespace next to a comma, keeps the input's
   * ends (the first piece its leading and the last its trailing whitespace),
   * and is raw piece `i` with only whitespace removed.
   */
  lemma SplitListPieces(s: string, i: nat)
    requires i <= CommaCount(s)
    ensures i > 0 ==> SplitList(s)[i] == [] || !IsSpace(SplitList(s)[i][0])
    ensures i < CommaCount(s) ==> SplitList(s)[i] == [] || !IsSpace(SplitList(s)[i][|SplitList(s)[i]| - 1])
    ensures i == 0 ==> SplitList(s)[i] <= SplitAtCommas(s)[i]
    ensures i == CommaCount(s) ==>
      |SplitList(s)[i]| <= |SplitAtCommas(s)[i]|
      && SplitList(s)[i] == SplitAtCommas(s)[i][|SplitAtCommas(s)[i]| - |SplitList(s)[i]|..]
    ensures TrimmedOf(SplitList(s)[i], SplitAtCommas(s)[i])
    ensures CommaCount(s) == 0 ==> SplitList(s) == [s]
  {
    var raw := SplitAtCommas(s);
    assert SplitList(s)[i] == Trim(raw[i], i > 0, i < |raw| - 1);
    TrimCutsOnlySpace(raw[i], i > 0, i < |raw| - 1);
    if CommaCount(s) == 0 {
      JoinSplitAtCommas(s);
      assert SplitList(s)[0] == raw[0] == s;
    }
  }

  /** No comma of `s` has whitespace right before or right after it. */
  predicate NoSpaceAroundCommas(s: string) {
    forall k | 0 <= k < |s| && s[k] == ',' ::
      (k == 0 || !IsSpace(s[k - 1])) && (k == |s| - 1 || !IsSpace(s[k + 1]))
  }

  /** No piece after the first starts, and no piece before the last ends, with whitespace. */
  predicate Unpadded(raw: seq<string>) {
    forall i | 0 <= i < |raw| ::
      (i > 0 ==> raw[i] == [] || !IsSpace(raw[i][0]))
      && (i < |raw| - 1 ==> raw[i] == [] || !IsSpace(raw[i][|raw[i]| - 1]))
  }

  /** Dropping the first character keeps the commas free of surrounding whitespace. */
  lemma NoSpaceAroundCommasTail(s: string)
    requires s != [] && NoSpaceAroundCommas(s)
    ensures NoSpaceAroundCommas(s[1..])
  {
    var t := s[1..];
    forall k | 0 <= k < |t| && t[k] == ','
      ensures (k == 0 || !IsSpace(t[k - 1])) && (k == |t| - 1 || !IsSpace(t[k + 1]))
    {
      assert s[k + 1] == ',';
    }
  }

  /** The induction step of `RawPiecesUnpadded` when `s` starts with a comma. */
  lemma UnpaddedAfterComma(s: string)
    requires s != [] && s[0] == ',' && NoSpaceAroundCommas(s)
    requires Unpadded(SplitAtCommas(s[1..]))
    ensures Unpadded(SplitAtCommas(s))
  {
    var t := s[1..];
    var rest := SplitAtCommas(t);
    var raw := SplitAtCommas(s);
    assert raw == [""] + rest;
    forall i | 0 < i < |raw| ensures raw[i] == [] || !IsSpace(raw[i][0]) {
      assert raw[i] == rest[i - 1];
      if i == 1 && rest[0] != [] {
        assert rest[0][0] == t[0] == s[1];
      }
    }
    forall i | 0 <= i < |raw| - 1 ensures raw[i] == [] || !IsSpace(raw[i][|raw[i]| - 1]) {
      if i > 0 {
        assert raw[i] == rest[i - 1];
      }
    }
  }

  /** The induction step of `RawPiecesUnpadded` when `s` starts with another character. */
  lemma UnpaddedAfterOther(s: string)
    requires s != [] && s[0] != ',' && NoSpaceAroundCommas(s)
    requires Unpadded(SplitAtCommas(s[1..]))
    ensures Unpadded(SplitAtCommas(s))
  {
    var rest := SplitAtCommas(s[1..]);
    var raw := SplitAtCommas(s);
    assert raw == [[s[0]] + rest[0]] + rest[1..];
    forall i | 0 < i < |raw| ensures raw[i] == [] || !IsSpace(raw[i][0]) {
      assert raw[i] == rest[i];
    }
    forall i | 0 <= i < |raw| - 1 ensures raw[i] == [] || !IsSpace(raw[i][|raw[i]| - 1]) {
      if i > 0 {
        assert raw[i] == rest[i];
      } else if rest[0] == [] {
        assert s[1] == ',';
      } else {
        assert raw[0][|raw[0]| - 1] == rest[0][|rest[0]| - 1];
      }
    }
  }

  /** Without whitespace around the commas, the raw pieces are unpadded. */
  lemma {:induction false} RawPiecesUnpadded(s: string)
    requires NoSpaceAroundCommas(s)
    ensures Unpadded(SplitAtCommas(s))
  {
    if s != [] {
      NoSpaceAroundCommasTail(s);
      RawPiecesUnpadded(s[1..]);
      if s[0] == ',' {
        UnpaddedAfterComma(s);
      } else {
        UnpaddedAfterOther(s);
      }
    }
  }

  /** Trimming an unpadded piece changes nothing. */
  lemma TrimUnpadded(raw: seq<string>, i: nat)
    requires i < |raw| && Unpadded(raw)
    ensures Trim(raw[i], i > 0, i < |raw| - 1) == raw[i]
  {
  }

  /** Without whitespace around the commas, the split is exact and joining restores the input. */
  lemma SplitListWithoutPadding(s: string)
    requires NoSpaceAroundCommas(s)
    ensures SplitList(s) == SplitAtCommas(s)
    ensures JoinWithCommas(SplitList(s)) == s
  {
    var raw := SplitAtCommas(s);
    RawPiecesUnpadded(s);
    forall i | 0 <= i < |raw| ensures SplitList(s)[i] == raw[i] {
      assert SplitList(s)[i] == Trim(raw[i], i > 0, i < |raw| - 1);
      TrimUnpadded(raw, i);
    }
    JoinSplitAtCommas(s);
  }

  // ---------------------------------------------------------------------------
  // Forcing plugins active
  // ---------------------------------------------------------------------------

  /** The filter's `foreach`: appends each item, in order, to the end of the list. */
  method AppendEach(list: seq<string>, items: seq<string>) returns (result: seq<string>)
    ensures result == list + items
  {
    result := list;
    for i := 0 to |items|
      invariant result == list + items[..i]
    {
      result := result + [items[i]];
    }
    assert items[..|items|] == items;
  }

  /**
   * The `active_plugins` filter. `activatedPlugins` is the value of the
   * constant `WP_TEST_ACTIVATED_PLUGINS`, `None` when it is not defined. The
   * result is the input list followed by the pieces of the constant.
   */
  method FilterActivePlugins(activePlugins: seq<string>, activatedPlugins: Option<string>)
    returns (result: seq<string>)
    ensures activePlugins <= result
    ensures activatedPlugins.None? ==> result == activePlugins
    ensures activatedPlugins.Some? ==> result[|activePlugins|..] == SplitList(activatedPlugins.value)
    ensures activatedPlugins.Some? ==> |result| == |activePlugins| + CommaCount(activatedPlugins.value) + 1
    ensures forall k | |activePlugins| <= k < |result| :: ',' !in result[k]
  {
    var forced: seq<string> := [];
    if activatedPlugins.Some? {
      forced := SplitList(activatedPlugins.value);
    }
    result := activePlugins;
    if forced != [] {
      result := AppendEach(result, forced);
    }
    assert result == activePlugins + forced;
    assert result[|activePlugins|..] == forced;
    forall k | |activePlugins| <= k < |result| ensures ',' !in result[k] {
      assert result[k] == forced[k - |activePlugins|];
    }
  }
}
