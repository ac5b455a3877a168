/** The method-name decomposition inside __call (src/WhereConditions.php): a name
    such as whereAgeGreaterThan names the method whereGreaterThan and the column age.
    The reflective call that follows it is not modelled. */
module NameDispatch {
  import opened Strings

  /** What one decomposition yields: the method to call and its first argument. */
  datatype Dispatch = Dispatch(methodName: string, column: string)

  /** The words of a name split before every upper-case letter: they spell the name,
      none is empty, every word after the first starts with an upper-case letter and
      no word has an upper-case letter after its first character. */
  ghost predicate IsUpperSplit(s: string, words: seq<string>)
  {
    && Implode("", words) == s
    && (forall k :: 0 <= k < |words| ==> |words[k]| > 0)
    && (forall k :: 0 < k < |words| ==> IsUpper(words[k][0]))
    && (forall k, i :: 0 <= k < |words| && 0 < i < |words[k]| ==> !IsUpper(words[k][i]))
  }

  lemma {:induction false} ImplodeEmptyCons(w: string, rest: seq<string>)
    ensures Implode("", [w] + rest) == w + Implode("", rest)
  {
    if |rest| > 0 {
      assert ([w] + rest)[1..] == rest;
    }
  }

  /** preg_split('/(?=[A-Z])/', $name, -1, PREG_SPLIT_NO_EMPTY). */
  function SplitBeforeUpper(s: string): (words: seq<string>)
    ensures IsUpperSplit(s, words)
    ensures |s| > 0 ==> |words| > 0 && words[0][0] == s[0]
    decreases |s|
  {
    if |s| == 0 then []
    else
      var rest := SplitBeforeUpper(s[1..]);
      if |rest| == 0 || IsUpper(s[1]) then
        SplitNewWord(s, rest);
        [[s[0]]] + rest
      else
        SplitJoinWord(s, rest);
        [[s[0]] + rest[0]] + rest[1..]
  }

  /** A first character followed by a capital, or by nothing, is a word of its own. */
  lemma {:induction false} SplitNewWord(s: string, rest: seq<string>)
    requires |s| > 0 && IsUpperSplit(s[1..], rest)
    requires |rest| > 0 ==> IsUpper(rest[0][0])
    ensures IsUpperSplit(s, [[s[0]]] + rest)
  {
    ImplodeEmptyCons([s[0]], rest);
    var words := [[s[0]]] + rest;
    forall k | 0 < k < |words| ensures IsUpper(words[k][0]) {
      assert words[k] == rest[k - 1];
    }
  }

  /** A first character followed by a lower-case character starts the first word of
      the rest. */
  lemma {:induction false} SplitJoinWord(s: string, rest: seq<string>)
    requires |s| > 0 && IsUpperSplit(s[1..], rest)
    requires |rest| > 0 && !IsUpper(rest[0][0])
    ensures IsUpperSplit(s, [[s[0]] + rest[0]] + rest[1..])
  {
    ImplodeEmptyCons(rest[0], rest[1..]);
    assert [rest[0]] + rest[1..] == rest;
    ImplodeEmptyCons([s[0]] + rest[0], rest[1..]);
    var w := [s[0]] + rest[0];
    var words := [w] + rest[1..];
    forall k, i | 0 <= k < |words| && 0 < i < |words[k]| ensures !IsUpper(words[k][i]) {
      if k == 0 {
        assert words[0][i] == rest[0][i - 1];
      } else {
        assert words[k] == rest[k];
      }
    }
    forall k | 0 < k < |words| ensures IsUpper(words[k][0]) {
      assert words[k] == rest[k];
    }
  }

  /** A word without inner capitals in front of text that is empty or starts with a
      capital comes out as one word of its own. */
  lemma {:induction false} SplitWordPrefix(w: string, t: string)
    requires |w| > 0 && forall i :: 0 < i < |w| ==> !IsUpper(w[i])
    requires |t| == 0 || IsUpper(t[0])
    ensures SplitBeforeUpper(w + t) == [w] + SplitBeforeUpper(t)
    decreases |w|
  {
    var s := w + t;
    assert s[1..] == w[1..] + t;
    if |w| == 1 {
      assert s[1..] == t && w == [s[0]];
      assert |t| > 0 ==> s[1] == t[0];
    } else {
      SplitWordPrefix(w[1..], t);
      assert [w[0]] + w[1..] == w;
    }
  }

  /** The split is the only one with those properties, so it is a decomposition of the
      name into capitalised words and nothing else. */
  lemma {:induction false} SplitBeforeUpperUnique(s: string, words: seq<string>)
    requires IsUpperSplit(s, words)
    ensures SplitBeforeUpper(s) == words
    decreases |words|
  {
    if |words| > 0 {
      var rest := words[1..];
      ImplodeEmptyCons(words[0], rest);
      assert [words[0]] + rest == words;
      assert IsUpperSplit(Implode("", rest), rest) by {
        forall k | 0 < k < |rest| ensures IsUpper(rest[k][0]) {
          assert rest[k] == words[k + 1];
        }
      }
      SplitBeforeUpperUnique(Implode("", rest), rest);
      if |rest| > 0 {
        ImplodeEmptyCons(rest[0], rest[1..]);
        assert [rest[0]] + rest[1..] == rest;
        assert Implode("", rest)[0] == rest[0][0] == words[1][0];
      }
      SplitWordPrefix(words[0], Implode("", rest));
    }
  }

  /** The prefixes that are skipped but stay in the method name. */
  const Prefixes: seq<string> := ["where", "and", "or"]

  /** The words that end the column part. */
  const Operations: seq<string> := ["Greater", "Less", "Like", "In", "Between"]

  /** No operation word is also a prefix word, so the loop's two tests never clash. */
  lemma {:induction false} OperationNotPrefix(w: string)
    ensures w in Operations ==> w !in Prefixes
  {
    if w in Operations {
      assert w[0] in "GLIB";
    }
  }

  /** The foreach loop over the words: the column text it accumulates (before the
      final trim) and the words left in $nameParts afterwards. */
  function ScanWords(words: seq<string>): (string, seq<string>)
    decreases |words|
  {
    if |words| == 0 then ("", [])
    else if words[0] in Prefixes then
      var (column, kept) := ScanWords(words[1..]);
      (column, [words[0]] + kept)
    else if words[0] in Operations then ("", words)
    else
      var (column, kept) := ScanWords(words[1..]);
      (ToLower(words[0]) + "_" + column, kept)
  }

  /** The decomposition in __call: the method is the concatenation of the words not
      consumed as column words, the column is the lower-cased column words joined by
      '_' with '_' trimmed from both ends. */
  function Decompose(name: string): Dispatch
  {
    var (column, kept) := ScanWords(SplitBeforeUpper(name));
    Dispatch(Implode("", kept), Trim(column, '_'))
  }

  /** Column words, each lower-cased and followed by '_'. */
  function ColumnText(words: seq<string>): string
    decreases |words|
  {
    if |words| == 0 then "" else ToLower(words[0]) + "_" + ColumnText(words[1..])
  }

  /** The index of the first operation word, or the number of words when there is none. */
  function FirstOperation(words: seq<string>): (i: nat)
    ensures i <= |words|
    ensures forall j :: 0 <= j < i ==> words[j] !in Operations
    ensures i < |words| ==> words[i] in Operations
    decreases |words|
  {
    if |words| == 0 || words[0] in Operations then 0 else 1 + FirstOperation(words[1..])
  }

  function PrefixWords(words: seq<string>): seq<string>
    decreases |words|
  {
    if |words| == 0 then [] else (if words[0] in Prefixes then [words[0]] else []) + PrefixWords(words[1..])
  }

  function NonPrefixWords(words: seq<string>): seq<string>
    decreases |words|
  {
    if |words| == 0 then [] else (if words[0] in Prefixes then [] else [words[0]]) + NonPrefixWords(words[1..])
  }

  /** The loop stops at the first operation word: up to it, the prefix words stay and
      every other word becomes column text; from it on, every word stays. */
  lemma {:induction false} ScanWordsSpec(words: seq<string>)
    ensures ScanWords(words).0 == ColumnText(NonPrefixWords(words[..FirstOperation(words)]))
    ensures ScanWords(words).1 == PrefixWords(words[..FirstOperation(words)]) + words[FirstOperation(words)..]
    decreases |words|
  {
    var i := FirstOperation(words);
    if |words| == 0 {
      assert words[..0] == [] && words[0..] == [];
    } else if words[0] in Operations {
      OperationNotPrefix(words[0]);
      assert words[..0] == [] && words[0..] == words;
    } else {
      ScanWordsSpec(words[1..]);
      ScanWordsStep(words, i);
    }
  }

  /** The step of ScanWordsSpec for a first word that is not an operation. */
  lemma {:induction false} ScanWordsStep(words: seq<string>, i: nat)
    requires |words| > 0 && words[0] !in Operations && i == FirstOperation(words)
    requires ScanWords(words[1..]).0 == ColumnText(NonPrefixWords(words[1..][..i - 1]))
    requires ScanWords(words[1..]).1 == PrefixWords(words[1..][..i - 1]) + words[1..][i - 1..]
    ensures ScanWords(words).0 == ColumnText(NonPrefixWords(words[..i]))
    ensures ScanWords(words).1 == PrefixWords(words[..i]) + words[i..]
  {
    var c := words[0];
    var rest := words[1..];
    var pre := words[..i];
    assert pre[1..] == rest[..i - 1];
    assert rest[i - 1..] == words[i..];
    assert pre[0] == c;
    var r := ScanWords(rest);
    if c in Prefixes {
      assert ScanWords(words) == (r.0, [c] + r.1);
      assert PrefixWords(pre) == [c] + PrefixWords(pre[1..]);
      assert NonPrefixWords(pre) == NonPrefixWords(pre[1..]);
      assert [c] + (PrefixWords(pre[1..]) + words[i..]) == PrefixWords(pre) + words[i..];
    } else {
      assert ScanWords(words) == (ToLower(c) + "_" + r.0, r.1);
      assert PrefixWords(pre) == PrefixWords(pre[1..]);
      assert NonPrefixWords(pre) == [c] + NonPrefixWords(pre[1..]);
    }
  }

  /** The usual shape of a dispatched name, {prefix}{Column words}{Operation}{rest}:
      the method keeps the prefix, the operation and the rest, and the column gets
      the column words. */
  lemma {:induction false} DecomposeShape(prefix: string, columnWords: seq<string>, operation: string, tail: seq<string>)
    requires prefix in Prefixes && operation in Operations
    requires forall k :: 0 <= k < |columnWords| ==> columnWords[k] !in Prefixes && columnWords[k] !in Operations
    ensures ScanWords([prefix] + columnWords + [operation] + tail)
            == (ColumnText(columnWords), [prefix, operation] + tail)
  {
    var words := [prefix] + columnWords + [operation] + tail;
    ScanWordsSpec(words);
    var i := |columnWords| + 1;
    assert FirstOperation(words) == i by {
      OperationNotPrefix(prefix);
      assert words[i] == operation;
      FirstOperationAt(words, i);
    }
    assert words[..i] == [prefix] + columnWords;
    assert words[i..] == [operation] + tail;
    assert PrefixWords([prefix] + columnWords) == [prefix] by {
      PrefixWordsNone(columnWords);
      assert ([prefix] + columnWords)[1..] == columnWords;
    }
    assert NonPrefixWords([prefix] + columnWords) == columnWords by {
      NonPrefixWordsAll(columnWords);
      assert ([prefix] + columnWords)[1..] == columnWords;
    }
    assert [prefix] + ([operation] + tail) == [prefix, operation] + tail;
  }

  lemma {:induction false} FirstOperationAt(words: seq<string>, i: nat)
    requires i < |words| && words[i] in Operations
    requires forall j :: 0 <= j < i ==> words[j] !in Operations
    ensures FirstOperation(words) == i
  {
  }

  lemma {:induction false} PrefixWordsNone(words: seq<string>)
    requires forall k :: 0 <= k < |words| ==> words[k] !in Prefixes
    ensures PrefixWords(words) == []
    decreases |words|
  {
    if |words| > 0 {
      PrefixWordsNone(words[1..]);
    }
  }

  lemma {:induction false} NonPrefixWordsAll(words: seq<string>)
    requires forall k :: 0 <= k < |words| ==> words[k] !in Prefixes
    ensures NonPrefixWords(words) == words
    decreases |words|
  {
    if |words| > 0 {
      NonPrefixWordsAll(words[1..]);
      assert [words[0]] + words[1..] == words;
    }
  }

  /** A name made of a prefix, column words, an operation word and further words
      dispatches to the prefix, the operation and the further words, with the
      column words lower-cased and joined by '_' as the column. */
  lemma {:induction false} DecomposeName(prefix: string, columnWords: seq<string>, operation: string, tail: seq<string>)
    requires prefix in Prefixes && operation in Operations
    requires forall k :: 0 <= k < |columnWords| ==> columnWords[k] !in Prefixes && columnWords[k] !in Operations
    requires IsUpperSplit(Implode("", [prefix] + columnWords + [operation] + tail), [prefix] + columnWords + [operation] + tail)
    ensures Decompose(Implode("", [prefix] + columnWords + [operation] + tail))
            == Dispatch(Implode("", [prefix, operation] + tail), Trim(ColumnText(columnWords), '_'))
  {
    var words := [prefix] + columnWords + [operation] + tail;
    SplitBeforeUpperUnique(Implode("", words), words);
    DecomposeShape(prefix, columnWords, operation, tail);
  }

  /** A capitalised word without '_' becomes its lower-cased self as the column. */
  lemma {:induction false} ColumnOfWord(w: string)
    requires |w| > 0 && IsUpper(w[0]) && '_' !in w
    ensures Trim(ColumnText([w]), '_') == ToLower(w)
  {
    var x := ToLower(w);
    assert ColumnText([w]) == x + "_" by {
      assert [w][1..] == [];
    }
    assert x[|x| - 1] != '_' by {
      assert x[|x| - 1] == LowerChar(w[|w| - 1]);
      assert w[|w| - 1] != '_';
    }
    assert x[0] != '_' by {
      assert x[0] == LowerChar(w[0]);
    }
    TrimSingleTrailing(x, '_');
  }

  /** Trimming c from text that does not start or end with c, followed by one c,
      gives the text back. */
  lemma {:induction false} TrimSingleTrailing(x: string, c: char)
    requires |x| > 0 && x[0] != c && x[|x| - 1] != c
    ensures Trim(x + [c], c) == x
  {
    assert (x + [c])[..|x|] == x;
    assert TrimRight(x + [c], c) == TrimRight(x, c);
  }

  /** Every prefix word is a non-empty lower-case word. */
  lemma {:induction false} PrefixWordShape(prefix: string)
    requires prefix in Prefixes
    ensures |prefix| > 0 && forall i :: 0 <= i < |prefix| ==> !IsUpper(prefix[i])
  {
  }

  /** Two words without inner capitals, the second capitalised, in front of text
      that is empty or capitalised, come out as two words of their own. */
  lemma {:induction false} SplitTwoWords(p: string, w: string, t: string)
    requires |p| > 0 && forall i :: 0 < i < |p| ==> !IsUpper(p[i])
    requires |w| > 0 && IsUpper(w[0]) && forall i :: 0 < i < |w| ==> !IsUpper(w[i])
    requires |t| == 0 || IsUpper(t[0])
    ensures SplitBeforeUpper(p + w + t) == [p, w] + SplitBeforeUpper(t)
  {
    var wt := w + t;
    assert p + w + t == p + wt;
    assert wt[0] == w[0];
    SplitWordPrefix(w, t);
    SplitWordPrefix(p, wt);
  }

  /** Every operation word starts with a capital. */
  lemma {:induction false} OperationCapitalised(op: string)
    requires op in Operations
    ensures |op| > 0 && IsUpper(op[0])
  {
  }

  /** {prefix}{Word}{rest}, for a prefix word, a capitalised word that is not an
      operation word and a rest whose first word is an operation word, dispatches to
      {prefix}{rest} with the lower-cased word as the column: whereAgeGreaterThan
      calls whereGreaterThan with the column age. */
  lemma {:induction false} DecomposeColumnWord(prefix: string, w: string, rest: string)
    requires prefix in Prefixes && w !in Operations
    requires |w| > 0 && IsUpper(w[0]) && '_' !in w && forall i :: 0 < i < |w| ==> !IsUpper(w[i])
    requires |rest| > 0 && SplitBeforeUpper(rest)[0] in Operations
    ensures Decompose(prefix + w + rest) == Dispatch(prefix + rest, ToLower(w))
  {
    var words := SplitBeforeUpper(rest);
    SplitColumnWord(prefix, w, rest);
    ScanColumnWord(prefix, w, words);
    ColumnOfWord(w);
    ImplodeEmptyCons(prefix, words);
  }

  /** The words of {prefix}{Word}{rest}: the prefix, the word, and the words of the rest. */
  lemma {:induction false} SplitColumnWord(prefix: string, w: string, rest: string)
    requires prefix in Prefixes
    requires |w| > 0 && IsUpper(w[0]) && forall i :: 0 < i < |w| ==> !IsUpper(w[i])
    requires |rest| > 0 && SplitBeforeUpper(rest)[0] in Operations
    ensures SplitBeforeUpper(prefix + w + rest) == [prefix, w] + SplitBeforeUpper(rest)
  {
    OperationCapitalised(SplitBeforeUpper(rest)[0]);
    PrefixWordShape(prefix);
    SplitTwoWords(prefix, w, rest);
  }

  /** The loop over a prefix word, one column word and words starting with an
      operation word keeps the prefix and the operation words, and takes the column
      word as the column. */
  lemma {:induction false} ScanColumnWord(prefix: string, w: string, words: seq<string>)
    requires prefix in Prefixes && w !in Operations && |w| > 0 && IsUpper(w[0])
    requires |words| > 0 && words[0] in Operations
    ensures ScanWords([prefix, w] + words) == (ColumnText([w]), [prefix] + words)
  {
    OperationNotPrefix(words[0]);
    assert ScanWords(words) == ("", words);
    CapitalisedNotPrefix(w);
    assert ([w] + words)[1..] == words;
    assert ScanWords([w] + words) == (ToLower(w) + "_" + "", words);
    assert ([prefix, w] + words)[1..] == [w] + words;
    assert ColumnText([w]) == ToLower(w) + "_" + ColumnText([]) by {
      assert [w][1..] == [];
    }
  }

  /** A capitalised word is not a prefix word. */
  lemma {:induction false} CapitalisedNotPrefix(w: string)
    requires |w| > 0 && IsUpper(w[0])
    ensures w !in Prefixes
  {
    if w in Prefixes {
      PrefixWordShape(w);
      assert false;
    }
  }
}
