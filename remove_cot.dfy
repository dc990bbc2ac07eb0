/** `remove_CoT.py`: every entry's `generated_dsl_output` loses its
    `<think>...</think>` spans and is cut to run from the first `CREATE` to the
    last `;`; the entries are then saved under `<base>_processed<ext>`. */
module RemoveCoT {
  import opened Optional
  import opened Strings
  import opened Json

  const OpenTag: string := "<think>"
  const CloseTag: string := "</think>"
  const OutputKey: string := "generated_dsl_output"

  /** A loaded JSON entry that is an object; entries of other kinds are not
      modelled. */
  type Entry = map<string, Value>

  // ---------------------------------------------------------------- think removal

  /** `re.sub(r'<think>.*?</think>', '', s, flags=re.DOTALL)`: scanning left to
      right, a `<think>` that has a `</think>` after it is deleted together with
      everything up to the nearest such `</think>`; the scan resumes after it. */
  function StripThink(s: string): string
    decreases |s|
  {
    if s == [] then []
    else
      var close := FindFrom(s, CloseTag, |OpenTag|);
      if StartsWith(s, OpenTag) && close.Some? then StripThink(s[close.value + |CloseTag|..])
      else [s[0]] + StripThink(s[1..])
  }

  /** Text without `</think>` is left as it is, so an unclosed `<think>` survives. */
  lemma {:induction false} StripThinkNoClose(s: string)
    requires forall j: nat :: !OccursAt(s, CloseTag, j)
    ensures StripThink(s) == s
    decreases |s|
  {
    if s != [] {
      assert forall j: nat :: OccursAt(s[1..], CloseTag, j) ==> OccursAt(s, CloseTag, j + 1);
      StripThinkNoClose(s[1..]);
    }
  }

  /** Text without `<` is kept verbatim in front of whatever follows it. */
  lemma {:induction false} StripThinkPlainPrefix(p: string, t: string)
    requires '<' !in p
    ensures StripThink(p + t) == p + StripThink(t)
    decreases |p|
  {
    if p != [] {
      assert (p + t)[0] == p[0] != '<' == OpenTag[0];
      assert !StartsWith(p + t, OpenTag);
      assert (p + t)[1..] == p[1..] + t;
      assert p == [p[0]] + p[1..];
      StripThinkPlainPrefix(p[1..], t);
    } else {
      assert p + t == t;
    }
  }

  /** A span `<think>` m `</think>` is deleted when `</think>` is the nearest
      closing tag (m holds none), whatever m holds, line breaks included. */
  lemma StripThinkSpan(m: string, q: string)
    requires forall j: nat :: !OccursAt(m, CloseTag, j)
    ensures StripThink(OpenTag + m + CloseTag + q) == StripThink(q)
  {
    var s := OpenTag + m + CloseTag + q;
    var e := |OpenTag| + |m|;
    assert OccursAt(s, CloseTag, e) by {
      assert s[e..e + |CloseTag|] == CloseTag;
    }
    forall j: nat | |OpenTag| <= j < e
      ensures !OccursAt(s, CloseTag, j)
    {
      if j + |CloseTag| <= e {
        assert s[j..j + |CloseTag|] == m[j - |OpenTag|..j - |OpenTag| + |CloseTag|];
        assert !OccursAt(m, CloseTag, j - |OpenTag|);
      } else {
        assert s[e] == '<';
        assert CloseTag[e - j] != '<';
      }
    }
    assert FindFrom(s, CloseTag, |OpenTag|) == Some(e);
    assert StartsWith(s, OpenTag);
    assert s[e + |CloseTag|..] == q;
  }

  // ---------------------------------------------------------------- statement cut

  /** The cut of lines 20-33: from the first `CREATE` to the last `;` after it,
      or None when either is missing (the entry is then left alone). */
  function TrimToStatement(t: string): Option<string> {
    var c := Find(t, "CREATE");
    if c.None? then None
    else
      var tail := t[c.value..];
      var l := RFind(tail, ";");
      if l.None? then None else Some(tail[..l.value + 1])
  }

  lemma ShiftOccurs(t: string, p: string, c: nat, j: nat)
    requires c <= j && c <= |t|
    ensures OccursAt(t, p, j) <==> OccursAt(t[c..], p, j - c)
  {
    if j + |p| <= |t| {
      assert t[c..][j - c..j - c + |p|] == t[j..j + |p|];
    }
  }

  /** The last `;` of the text is the last `;` of its tail from `c`, when the
      tail holds one. */
  lemma LastInTail(t: string, c: nat, l: nat)
    requires c <= |t| && RFind(t[c..], ";") == Some(l)
    ensures RFind(t, ";") == Some(c + l)
  {
    ShiftOccurs(t, ";", c, c + l);
    var g := RFind(t, ";");
    ShiftOccurs(t, ";", c, g.value);
  }

  /** The found case of the cut: `CREATE` first at `c`, and its tail's last `;`
      at `l`; the cut runs from that `CREATE` to that `;`. */
  lemma TrimFound(t: string, c: nat, l: nat)
    requires Find(t, "CREATE") == Some(c)
    requires RFind(t[c..], ";") == Some(l)
    ensures l >= 6
    ensures var r := t[c..][..l + 1];
      r == t[c..c + l + 1] && StartsWith(r, "CREATE") && EndsWith(r, ";")
  {
    var tail := t[c..];
    assert tail[..6] == "CREATE";
    assert tail[l] == ';';
    assert l >= 6 by {
      assert forall k :: 0 <= k < 6 ==> tail[k] != ';';
    }
    var r := tail[..l + 1];
    assert r[..6] == tail[..6];
    assert r[|r| - 1..] == [tail[l]];
  }

  /** The cut succeeds exactly when `CREATE` occurs and a `;` occurs at or
      after its first occurrence; the result is then the slice of the text
      from the first `CREATE` to its last `;`, inclusive, so it starts with
      `CREATE` and ends with `;`. */
  lemma TrimToStatementSpec(t: string)
    ensures TrimToStatement(t).Some? <==>
      Find(t, "CREATE").Some? && exists j: nat :: Find(t, "CREATE").value <= j && OccursAt(t, ";", j)
    ensures TrimToStatement(t).Some? ==>
      var r := TrimToStatement(t).value;
      && RFind(t, ";").Some?
      && r == t[Find(t, "CREATE").value..RFind(t, ";").value + 1]
      && StartsWith(r, "CREATE") && EndsWith(r, ";")
  {
    var c := Find(t, "CREATE");
    if c.Some? {
      var l := RFind(t[c.value..], ";");
      if l.Some? {
        TrimFound(t, c.value, l.value);
        LastInTail(t, c.value, l.value);
        ShiftOccurs(t, ";", c.value, c.value + l.value);
      } else {
        forall j: nat | c.value <= j ensures !OccursAt(t, ";", j) {
          ShiftOccurs(t, ";", c.value, j);
        }
      }
    }
  }

  // ---------------------------------------------------------------- entries

  datatype Step =
    | Unchanged          // no `generated_dsl_output`, or one of the anchors missing
    | Replace(text: string)
    | Crash              // `re.sub` on a value that is not a string raises TypeError

  /** The per-entry work of the loop in process_json. */
  function EntryStep(e: Entry): Step {
    if OutputKey !in e then Unchanged
    else match e[OutputKey]
      case Str(t) =>
        (match TrimToStatement(StripThink(t))
         case None => Unchanged
         case Some(r) => Replace(r))
      case _ => Crash
  }

  /** The entry after its step; a crashing step never completes. */
  function Processed(e: Entry): Entry {
    match EntryStep(e)
    case Replace(r) => e[OutputKey := Str(r)]
    case _ => e
  }

  /** Only `generated_dsl_output` can change, and when it does its new value is
      the cut of the think-stripped old value. */
  lemma ProcessedSpec(e: Entry)
    ensures Processed(e).Keys == e.Keys
    ensures forall k :: k in e && k != OutputKey ==> Processed(e)[k] == e[k]
    ensures OutputKey !in e ==> Processed(e) == e
    ensures EntryStep(e).Replace? ==>
      && e[OutputKey].Str?
      && TrimToStatement(StripThink(e[OutputKey].s)) == Some(EntryStep(e).text)
      && Processed(e)[OutputKey] == Str(EntryStep(e).text)
      && StartsWith(EntryStep(e).text, "CREATE") && EndsWith(EntryStep(e).text, ";")
  {
    if EntryStep(e).Replace? {
      TrimToStatementSpec(StripThink(e[OutputKey].s));
    }
  }

  /** The loop of process_json, rewriting `data`'s entries in place. `ok` is
      false when an entry's `generated_dsl_output` is not a string: the
      TypeError ends the script, with the entries before it already rewritten. */
  method ProcessEntries(data: array<Entry>) returns (ok: bool)
    modifies data
    ensures ok <==> forall i :: 0 <= i < data.Length ==> EntryStep(old(data[i])) != Crash
    ensures ok ==> forall i :: 0 <= i < data.Length ==> data[i] == Processed(old(data[i]))
    ensures !ok ==> exists k :: (0 <= k < data.Length && EntryStep(old(data[k])) == Crash
      && (forall i :: 0 <= i < k ==> EntryStep(old(data[i])) != Crash)
      && (forall i :: 0 <= i < k ==> data[i] == Processed(old(data[i])))
      && (forall i :: k <= i < data.Length ==> data[i] == old(data[i])))
  {
    for i := 0 to data.Length
      invariant forall j :: 0 <= j < i ==> EntryStep(old(data[j])) != Crash
      invariant forall j :: 0 <= j < i ==> data[j] == Processed(old(data[j]))
      invariant forall j :: i <= j < data.Length ==> data[j] == old(data[j])
    {
      var entry := data[i];
      if OutputKey in entry {
        var dslOutput := entry[OutputKey];
        if !dslOutput.Str? {
          return false;
        }
        var cut := TrimToStatement(StripThink(dslOutput.s));
        if cut.Some? {
          data[i] := entry[OutputKey := Str(cut.value)];
        }
      }
    }
    return true;
  }

  // ---------------------------------------------------------------- output path

  predicate AllDots(p: string, from: nat, to: nat)
    requires from <= to <= |p|
  {
    forall k :: from <= k < to ==> p[k] == '.'
  }

  /** Python's `os.path.splitext` on a POSIX path: the extension starts at the
      last `.` of the last path component, unless only dots precede it there. */
  function SplitExt(p: string): (string, string) {
    var sepIndex: int := match RFind(p, "/") case Some(i) => i case None => -1;
    match RFind(p, ".")
    case Some(dot) =>
      if dot > sepIndex && !AllDots(p, sepIndex + 1, dot) then (p[..dot], p[dot..]) else (p, "")
    case None => (p, "")
  }

  lemma SplitExtSpec(p: string)
    ensures SplitExt(p).0 + SplitExt(p).1 == p
    ensures var ext := SplitExt(p).1;
      ext == "" || (ext[0] == '.' && '.' !in ext[1..] && '/' !in ext)
  {
    var (base, ext) := SplitExt(p);
    if ext != "" {
      var dot := RFind(p, ".").value;
      forall k | 1 <= k < |ext| ensures ext[k] != '.' {
        assert !OccursAt(p, ".", dot + k);
      }
      forall k | 0 <= k < |ext| ensures ext[k] != '/' {
        assert !OccursAt(p, "/", dot + k);
      }
    }
  }

  /** `f"{base_name}_processed{ext}"`. */
  function OutputPath(jsonPath: string): string {
    var (base, ext) := SplitExt(jsonPath);
    base + "_processed" + ext
  }

  /** The output path is the input path with `_processed` inserted before the
      extension, so the input file is never overwritten. */
  lemma OutputPathSpec(jsonPath: string)
    ensures var (base, ext) := SplitExt(jsonPath);
      && base + ext == jsonPath
      && OutputPath(jsonPath) == base + "_processed" + ext
      && (ext == "" || ext[0] == '.')
    ensures OutputPath(jsonPath) != jsonPath
  {
    SplitExtSpec(jsonPath);
    assert |OutputPath(jsonPath)| == |jsonPath| + 10;
  }

  /** process_json after loading: the entries are rewritten in place and, when
      no entry raised, saved to the returned path. */
  method ProcessJson(jsonPath: string, data: array<Entry>) returns (savedTo: Option<string>)
    modifies data
    ensures savedTo.Some? <==> forall i :: 0 <= i < data.Length ==> EntryStep(old(data[i])) != Crash
    ensures savedTo.Some? ==> savedTo.value == OutputPath(jsonPath)
    ensures savedTo.Some? ==> forall i :: 0 <= i < data.Length ==> data[i] == Processed(old(data[i]))
  {
    var ok := ProcessEntries(data);
    if !ok {
      return None;
    }
    var (baseName, ext) := SplitExt(jsonPath);
    savedTo := Some(baseName + "_processed" + ext);
  }
}
