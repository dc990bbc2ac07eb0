/** `scripts/clean_table.py`: the model-name clean-up and the parameter
    formatting applied to the columns of the best-results table. */
module CleanTable {
  import opened Optional
  import opened Strings
  import opened Json

  // ---------------------------------------------------------------- model names

  const Phrase: string := "full precision"
  const Short: string := "fp"

  // The five rebindings of clean_model_name, in order.
  function DropPrefix(s: string): string { ReplaceAll(s, "overall_metrics_", "") }
  function Underscores(s: string): string { ReplaceAll(s, "_", " ") }
  function DropQuantized(s: string): string { ReplaceAll(s, "quantized", "") }
  function Shorten(s: string): string { ReplaceAll(s, Phrase, Short) }

  /** clean_model_name: delete `overall_metrics_`, turn `_` into a space,
      delete `quantized`, strip, and shorten `full precision` to `fp`. */
  function CleanModelName(name: string): string {
    Shorten(Strip(DropQuantized(Underscores(DropPrefix(name)))))
  }

  /** `fp` cannot line up with any part of `full precision`. */
  lemma ShortMisaligned()
    ensures forall k :: 0 <= k < |Phrase| ==> Disagree(Short, Phrase[k..])
    ensures forall k :: 0 <= k < |Short| ==> Disagree(Short[k..], Phrase)
  {
    assert Short[1] != Phrase[1];
    forall k | 0 < k < |Phrase| ensures Disagree(Short, Phrase[k..]) {
      assert Short[0] != Phrase[k..][0];
    }
    assert Short[1..][0] != Phrase[0];
  }

  /** The text reaching the last stage holds no underscore. */
  lemma NoUnderscoreBeforeShorten(name: string)
    ensures '_' !in Strip(DropQuantized(Underscores(DropPrefix(name))))
  {
    var spaced := Underscores(DropPrefix(name));
    ReplaceRemovesChar(DropPrefix(name), '_', " ");
    assert '_' !in spaced;
    ReplaceKeepsAbsent(spaced, "quantized", "", '_');
    assert '_' !in DropQuantized(spaced);
    StripKeepsAbsent(DropQuantized(spaced), '_');
  }

  /** A cleaned name holds no underscore, has no whitespace at either end
      (the final replacement starts and ends with a letter), and holds no
      `full precision`. */
  lemma CleanModelNameSpec(name: string)
    ensures '_' !in CleanModelName(name)
    ensures var r := CleanModelName(name);
      r != [] ==> !IsSpace(r[0]) && !IsSpace(r[|r| - 1])
    ensures forall j: nat :: !OccursAt(CleanModelName(name), Phrase, j)
  {
    CleanNoUnderscore(name);
    CleanTrimmed(name);
    ShortenedHasNoPhrase(Strip(DropQuantized(Underscores(DropPrefix(name)))));
  }

  lemma CleanNoUnderscore(name: string)
    ensures '_' !in CleanModelName(name)
  {
    var stripped := Strip(DropQuantized(Underscores(DropPrefix(name))));
    NoUnderscoreBeforeShorten(name);
    assert '_' !in stripped;
    assert '_' !in Short;
    ReplaceKeepsAbsent(stripped, Phrase, Short, '_');
    assert CleanModelName(name) == Shorten(stripped);
  }

  lemma CleanTrimmed(name: string)
    ensures var r := CleanModelName(name);
      r != [] ==> !IsSpace(r[0]) && !IsSpace(r[|r| - 1])
  {
    var s := Strip(DropQuantized(Underscores(DropPrefix(name))));
    assert s != [] ==> !IsSpace(s[0]) && !IsSpace(s[|s| - 1]);
    ShortenedEdges(s);
    assert CleanModelName(name) == Shorten(s);
  }

  /** Shortening keeps a stripped text stripped. */
  lemma ShortenedEdges(s: string)
    requires s != [] ==> !IsSpace(s[0]) && !IsSpace(s[|s| - 1])
    ensures var r := Shorten(s); r != [] ==> !IsSpace(r[0]) && !IsSpace(r[|r| - 1])
  {
    ReplaceEdges(s, Phrase, Short);
  }

  /** Shortening leaves no `full precision` behind. */
  lemma ShortenedHasNoPhrase(s: string)
    ensures forall j: nat :: !OccursAt(Shorten(s), Phrase, j)
  {
    ShortMisaligned();
    forall j: nat ensures !OccursAt(Shorten(s), Phrase, j) {
      ReplaceLeavesNoPattern(s, Phrase, Short, j);
    }
  }

  /** The first three stages turn `m_u_w` into `m u w` when the words hold
      no `_`, `q` or `v`. */
  lemma ThreeWordsSpaced(m: string, u: string, w: string)
    requires '_' !in m && 'q' !in m && 'v' !in m
    requires '_' !in u && 'q' !in u && 'v' !in u
    requires '_' !in w && 'q' !in w && 'v' !in w
    ensures DropQuantized(Underscores(DropPrefix(m + ("_" + (u + ("_" + w)))))) == m + (" " + (u + (" " + w)))
  {
    var name := m + ("_" + (u + ("_" + w)));
    ReplaceMissing(name, "overall_metrics_", "", 'v');
    ReplaceBetween(m, u, w, '_', " ");
    ReplaceMissing(m + (" " + (u + (" " + w))), "quantized", "", 'q');
  }

  /** The underscore is replaced before the phrase is looked for, so a name
      ending in `_full_precision` ends in ` fp` once cleaned (for a stem with
      none of the characters `_`, `f`, `q`, `v` and no whitespace at either
      end, such as `llama3-8b`). */
  lemma FullPrecisionSuffix(m: string)
    requires m != [] && !IsSpace(m[0]) && !IsSpace(m[|m| - 1])
    requires '_' !in m && 'f' !in m && 'q' !in m && 'v' !in m
    ensures CleanModelName(m + "_full_precision") == m + " fp"
  {
    SuffixSpaced(m);
    SuffixStripped(m);
    SuffixShortened(m);
  }

  /** The spelling of the phrase in a raw model name. */
  const Marker: string := "full_precision"

  /** `overall_metrics_` cannot overlap `full_precision`: it holds no `f`,
      and its only `o` would meet the `n` that ends the marker. */
  lemma PrefixApartFromMarker()
    ensures Apart("overall_metrics_", Marker)
  {
    var pre := "overall_metrics_";
    forall d | 0 <= d < |pre| ensures Disagree(pre[d..], Marker) {
      assert pre[d..][0] != Marker[0];
    }
    forall d | 0 < d < |Marker| ensures Disagree(Marker[d..], pre) {
      if d == 12 {
        assert Marker[d..][1] != pre[1];
      } else {
        assert Marker[d..][0] != pre[0];
      }
    }
  }

  /** `quantized` cannot overlap `full precision`: neither holds the other's
      first letter. */
  lemma QuantizedApartFromPhrase()
    ensures Apart("quantized", Phrase)
  {
    var q := "quantized";
    forall d | 0 <= d < |q| ensures Disagree(q[d..], Phrase) {
      assert q[d..][0] != Phrase[0];
    }
    forall d | 0 < d < |Phrase| ensures Disagree(Phrase[d..], q) {
      assert Phrase[d..][0] != q[0];
    }
  }

  /** Deleting `overall_metrics_` keeps the marker. */
  lemma MarkerSurvivesPrefix(name: string, j: nat)
    requires OccursAt(name, Marker, j)
    ensures exists k: nat :: OccursAt(DropPrefix(name), Marker, k)
  {
    PrefixApartFromMarker();
    ReplaceKeepsOccurrence(name, "overall_metrics_", "", Marker, j);
    var k: nat :| OccursAt(ReplaceAll(name, "overall_metrics_", ""), Marker, k);
    assert OccursAt(DropPrefix(name), Marker, k);
  }

  /** The underscore stage turns `a_b`, where it stands, into `a b` when the
      two words hold no underscore. */
  lemma WordsSpacedAt(s: string, k: nat, a: string, b: string)
    requires '_' !in a && '_' !in b
    requires OccursAt(s, a + ("_" + b), k)
    ensures OccursAt(Underscores(s), a + (" " + b), k)
  {
    var w := a + ("_" + b);
    var before, after := s[..k], s[k + |w|..];
    assert s == before + (w + after);
    ReplaceOneCharAppend(before, w + after, '_', ' ');
    ReplaceOneCharAppend(w, after, '_', ' ');
    ReplaceSeparator(a, b, '_', " ");
    ReplaceMissing(b, "_", " ", '_');
    ReplaceOneChar(before, '_', ' ');
    var spaced := Underscores(s);
    assert spaced == Underscores(before) + (a + (" " + b) + Underscores(after));
    assert spaced[k..k + |a + (" " + b)|] == a + (" " + b);
  }

  /** The underscore stage turns the marker, where it stands, into the phrase. */
  lemma MarkerBecomesPhrase(s: string, k: nat)
    requires OccursAt(s, Marker, k)
    ensures OccursAt(Underscores(s), Phrase, k)
  {
    assert Marker == "full" + ("_" + "precision");
    WordsSpacedAt(s, k, "full", "precision");
    assert Phrase == "full" + (" " + "precision");
  }

  /** Deleting `quantized` and stripping keep the phrase. */
  lemma PhraseSurvivesTrim(s: string, k: nat)
    requires OccursAt(s, Phrase, k)
    ensures exists k': nat :: OccursAt(Strip(DropQuantized(s)), Phrase, k')
  {
    QuantizedApartFromPhrase();
    ReplaceKeepsOccurrence(s, "quantized", "", Phrase, k);
    var k3: nat :| OccursAt(DropQuantized(s), Phrase, k3);
    StripKeepsOccurrence(DropQuantized(s), Phrase, k3);
  }

  /** Any name holding `full_precision`, wherever it stands and whatever
      surrounds it, holds `fp` once cleaned: none of the earlier stages can
      break the marker up, and the underscore stage turns it into the
      phrase the last stage shortens. */
  lemma FullPrecisionShortened(name: string, j: nat)
    requires OccursAt(name, Marker, j)
    ensures exists k: nat :: OccursAt(CleanModelName(name), Short, k)
  {
    MarkerSurvivesPrefix(name, j);
    var k1: nat :| OccursAt(DropPrefix(name), Marker, k1);
    MarkerBecomesPhrase(DropPrefix(name), k1);
    PhraseSurvivesTrim(Underscores(DropPrefix(name)), k1);
    var trimmed := Strip(DropQuantized(Underscores(DropPrefix(name))));
    var k4: nat :| OccursAt(trimmed, Phrase, k4);
    ReplaceProducesRep(trimmed, Phrase, Short, k4);
    var k: nat :| OccursAt(ReplaceAll(trimmed, Phrase, Short), Short, k);
    assert CleanModelName(name) == Shorten(trimmed);
    assert OccursAt(CleanModelName(name), Short, k);
  }

  lemma SuffixSpaced(m: string)
    requires '_' !in m && 'q' !in m && 'v' !in m
    ensures DropQuantized(Underscores(DropPrefix(m + "_full_precision"))) == (m + " ") + Phrase
  {
    assert "_full_precision" == "_" + ("full" + ("_" + "precision"));
    ThreeWordsSpaced(m, "full", "precision");
    assert " " + ("full" + (" " + "precision")) == " " + Phrase;
    assert m + (" " + Phrase) == (m + " ") + Phrase;
  }

  lemma SuffixStripped(m: string)
    requires m != [] && !IsSpace(m[0])
    ensures Strip((m + " ") + Phrase) == (m + " ") + Phrase
  {
    var spaced := (m + " ") + Phrase;
    assert spaced[0] == m[0] && spaced[|spaced| - 1] == 'n';
    StripUnchanged(spaced);
  }

  lemma SuffixShortened(m: string)
    requires 'f' !in m
    ensures Shorten((m + " ") + Phrase) == m + " fp"
  {
    ReplaceSuffix(m + " ", Phrase, Short);
  }

  // ---------------------------------------------------------------- parameters

  /** What format_parameters returns, or the exception that escapes it. */
  datatype Formatted =
    | Text(text: string)
    | InvalidParams          // json.JSONDecodeError, caught: "Invalid Params"
    | AttributeError         // the decoded value is not a dictionary: `.get` raises

  /** The single quotes of a Python dict literal become JSON's double quotes. */
  function Requote(paramStr: string): (r: string)
    ensures |r| == |paramStr|
    ensures forall i :: 0 <= i < |r| ==> r[i] == (if paramStr[i] == '\'' then '"' else paramStr[i])
    ensures '\'' !in r
  {
    ReplaceOneChar(paramStr, '\'', '"');
    ReplaceAll(paramStr, "'", "\"")
  }

  /** `params.get(key, 'N/A')` inside an f-string; `show` is `str()` of a loaded value. */
  function Shown(params: map<string, Value>, key: string, show: Value -> string): string {
    if key in params then show(params[key]) else "N/A"
  }

  /** The f-string of line 15 over already-parsed parameters. */
  function ParamText(params: map<string, Value>, show: Value -> string): string {
    "top_k: " + Shown(params, "top_k", show)
      + ", top_p: " + Shown(params, "top_p", show)
      + ", t: " + Shown(params, "temperature", show)
  }

  /** format_parameters; `loads` is json.loads, None when it raises JSONDecodeError. */
  function FormatParameters(paramStr: string, loads: string -> Option<Value>, show: Value -> string): (r: Formatted)
    ensures r == InvalidParams <==> loads(Requote(paramStr)).None?
    ensures r == AttributeError <==> loads(Requote(paramStr)).Some? && !loads(Requote(paramStr)).value.Obj?
    ensures r.Text? ==> r.text == ParamText(loads(Requote(paramStr)).value.fields, show)
  {
    match loads(Requote(paramStr))
    case None => InvalidParams
    case Some(Obj(params)) => Text(ParamText(params, show))
    case Some(_) => AttributeError
  }

  /** The text depends on the three keys only: parameter maps that agree on
      `top_k`, `top_p` and `temperature` format alike. */
  lemma ParamTextOnlyThreeKeys(p: map<string, Value>, q: map<string, Value>, show: Value -> string)
    requires forall k :: k in ["top_k", "top_p", "temperature"] ==> Get(p, k) == Get(q, k)
    ensures ParamText(p, show) == ParamText(q, show)
  {
    assert Get(p, "top_k") == Get(q, "top_k");
    assert Get(p, "top_p") == Get(q, "top_p");
    assert Get(p, "temperature") == Get(q, "temperature");
  }

  /** Absent keys show as `N/A`; with none of them present the text is fixed. */
  lemma ParamTextAllMissing(params: map<string, Value>, show: Value -> string)
    requires "top_k" !in params && "top_p" !in params && "temperature" !in params
    ensures ParamText(params, show) == "top_k: N/A, top_p: N/A, t: N/A"
  {
  }
}
