/**
 * The line parser shared by the rar and 7z listings: every line of a hunk
 * that reads "key SEP value" (SEP is ':' for rar and '=' for 7z) gives a
 * normalised key and a trimmed value, and later lines win.
 */
module Listing {

  import opened Errors
  import opened Text

  /** `\w` after lowering: ASCII letters, digits and '_' (characters outside
      ASCII are kept as they are). */
  predicate IsWordChar(c: char) {
    ('a' <= c <= 'z') || ('A' <= c <= 'Z') || IsDigit(c) || c == '_' || c as int >= 128
  }

  /** `re.sub(r'\W', '_', key.lower())` */
  function NormalizeKey(key: string): (r: string)
    ensures |r| == |key|
    ensures forall i :: 0 <= i < |key| ==> r[i] == (if IsWordChar(LowerChar(key[i])) then LowerChar(key[i]) else '_')
    ensures forall i :: 0 <= i < |r| ==> IsWordChar(r[i])
  {
    if key == [] then []
    else
      var c := LowerChar(key[0]);
      [if IsWordChar(c) then c else '_'] + NormalizeKey(key[1..])
  }

  /** Normalising is idempotent: a normalised key is its own normal form. */
  lemma {:induction false} NormalizeIdempotent(key: string)
    ensures NormalizeKey(NormalizeKey(key)) == NormalizeKey(key)
  {
    var n := NormalizeKey(key);
    var nn := NormalizeKey(n);
    forall i | 0 <= i < |n| ensures nn[i] == n[i] {
      assert IsWordChar(n[i]);
      assert n[i] == LowerChar(key[i]) || n[i] == '_';
      assert LowerChar(n[i]) == n[i];
    }
  }

  /** Index of the first `c` in `s` at or after `i`. */
  function FirstFrom(s: string, c: char, i: nat): (r: Option<nat>)
    requires i <= |s|
    ensures r.Some? ==> i <= r.value < |s| && s[r.value] == c
    ensures r.Some? ==> forall j :: i <= j < r.value ==> s[j] != c
    ensures r.None? ==> forall j :: i <= j < |s| ==> s[j] != c
    decreases |s| - i
  {
    if i == |s| then None
    else if s[i] == c then Some(i)
    else FirstFrom(s, c, i + 1)
  }

  /** The number of leading `[ \t\f]` characters. */
  function LeadingBlanks(s: string): (r: nat)
    ensures r <= |s|
    ensures forall j :: 0 <= j < r ==> IsBlank(s[j])
    ensures r < |s| ==> !IsBlank(s[r])
  {
    |s| - |TrimStart(s)|
  }

  /** What `^[ \t\f]*(.+?)[ \t\f]*SEP[ \t\f]*(.*?)[ \t\f]*$` captures on one
      line: after the leading blanks the key runs (lazily, at least one
      character) up to blanks followed by the first separator after the
      key's first character; the value is the rest, trimmed.  When the only
      separator is right after the leading blanks, the engine gives one
      blank back, which becomes the key. */
  function ParseLine(line: string, sep: char): (r: Option<(string, string)>)
    requires !IsBlank(sep)
    ensures r.Some? ==> r.value.0 != []
  {
    ParseAfterBlanks(line, sep, LeadingBlanks(line))
  }

  /** `ParseLine` once the `m` leading blanks are counted. */
  function ParseAfterBlanks(line: string, sep: char, m: nat): (r: Option<(string, string)>)
    requires m <= |line| && (m < |line| ==> !IsBlank(line[m]))
    ensures r.Some? ==> r.value.0 != []
  {
    if m < |line| && FirstFrom(line, sep, m + 1).Some? then
      Some(KeyValue(line, m, FirstFrom(line, sep, m + 1).value))
    else if 1 <= m < |line| && line[m] == sep then
      Some((line[m - 1..m], Trim(line[m + 1..])))
    else
      None
  }

  /** The key (up to the separator at `j`, without trailing blanks) and the
      trimmed value after it. */
  function KeyValue(line: string, m: nat, j: nat): (r: (string, string))
    requires m < j < |line| && !IsBlank(line[m])
    ensures r.0 != [] && r.0[0] == line[m]
  {
    assert line[m..j][0] == line[m];
    (TrimEnd(line[m..j]), Trim(line[j + 1..]))
  }

  predicate SepAt(line: string, sep: char, j: int) {
    1 <= j < |line| && line[j] == sep
  }

  /** A line yields a pair exactly when the separator occurs somewhere after
      its first character. */
  lemma {:induction false} ParseLineMatches(line: string, sep: char)
    requires !IsBlank(sep)
    ensures ParseLine(line, sep).Some? <==> exists j :: SepAt(line, sep, j)
  {
    var m := LeadingBlanks(line);
    if m < |line| && FirstFrom(line, sep, m + 1).Some? {
      assert ParseLine(line, sep).Some?;
      assert SepAt(line, sep, FirstFrom(line, sep, m + 1).value);
    } else if 1 <= m < |line| && line[m] == sep {
      assert ParseLine(line, sep).Some?;
      assert SepAt(line, sep, m);
    } else {
      assert ParseLine(line, sep).None?;
    }
  }

  lemma TrimOfTrimmed(v: string)
    requires v == [] || (!IsBlank(v[0]) && !IsBlank(v[|v| - 1]))
    ensures Trim(v) == v
  {
  }

  lemma {:induction false} FirstFromIs(s: string, c: char, i: nat, k: nat)
    requires i <= k < |s| && s[k] == c
    requires forall j :: i <= j < k ==> s[j] != c
    ensures FirstFrom(s, c, i) == Some(k)
    decreases k - i
  {
    if i < k {
      FirstFromIs(s, c, i + 1, k);
    }
  }

  predicate AllBlank(s: string) {
    forall i :: 0 <= i < |s| ==> IsBlank(s[i])
  }

  lemma {:induction false} TrimBlanksBefore(pad: string, v: string)
    requires AllBlank(pad) && (v == [] || (!IsBlank(v[0]) && !IsBlank(v[|v| - 1])))
    ensures Trim(pad + v) == v
    decreases |pad|
  {
    if pad == [] {
      assert pad + v == v;
      TrimOfTrimmed(v);
    } else {
      assert (pad + v)[1..] == pad[1..] + v;
      TrimBlanksBefore(pad[1..], v);
    }
  }

  lemma {:induction false} TrimEndBlanksAfter(k: string, pad: string)
    requires k != [] && !IsBlank(k[|k| - 1]) && AllBlank(pad)
    ensures TrimEnd(k + pad) == k
    decreases |pad|
  {
    if pad == [] {
      assert k + pad == k;
    } else {
      assert (k + pad)[..|k + pad| - 1] == k + pad[..|pad| - 1];
      TrimEndBlanksAfter(k, pad[..|pad| - 1]);
    }
  }

  /** A line written as "key SEP value", with any blanks around the
      separator, parses back to that key and value, for a key that does not
      start or end with a blank or contain the separator, and a value
      without surrounding blanks (which may itself contain the separator). */
  lemma {:induction false} ParseLineRoundTrip(key: string, pad1: string, sep: char, pad2: string, value: string)
    requires !IsBlank(sep) && AllBlank(pad1) && AllBlank(pad2)
    requires key != [] && !IsBlank(key[0]) && !IsBlank(key[|key| - 1])
    requires forall i :: 0 <= i < |key| ==> key[i] != sep
    requires value == [] || (!IsBlank(value[0]) && !IsBlank(value[|value| - 1]))
    ensures ParseLine(key + pad1 + [sep] + pad2 + value, sep) == Some((key, value))
  {
    var line := key + pad1 + [sep] + pad2 + value;
    var j := |key| + |pad1|;
    KeyComesFirst(key, pad1, sep, pad2, value);
    KeyAndValueRead(key, pad1, sep, pad2, value);
    ReadAtFirstSeparator(line, sep, j, key, value);
  }

  /** A line without leading blanks whose first separator is at `j` parses
      to what lies around `j`. */
  lemma ReadAtFirstSeparator(line: string, sep: char, j: nat, key: string, value: string)
    requires !IsBlank(sep) && 0 < j < |line| && !IsBlank(line[0])
    requires LeadingBlanks(line) == 0 && FirstFrom(line, sep, 1) == Some(j)
    requires KeyValue(line, 0, j) == (key, value)
    ensures ParseLine(line, sep) == Some((key, value))
  {
    assert ParseAfterBlanks(line, sep, 0) == Some((key, value));
    assert ParseLine(line, sep) == ParseAfterBlanks(line, sep, 0);
  }

  /** In such a line the key starts at once and the separator after it is
      the first one. */
  lemma KeyComesFirst(key: string, pad1: string, sep: char, pad2: string, value: string)
    requires !IsBlank(sep) && AllBlank(pad1)
    requires key != [] && !IsBlank(key[0])
    requires forall i :: 0 <= i < |key| ==> key[i] != sep
    ensures var line := key + pad1 + [sep] + pad2 + value;
      LeadingBlanks(line) == 0 && FirstFrom(line, sep, 1) == Some(|key| + |pad1|)
  {
    var head := key + pad1 + [sep];
    var line := head + pad2 + value;
    assert line == head + (pad2 + value);
    assert head == key + (pad1 + [sep]);
    KeyStartsLine(key, line);
    SeparatorAfterKey(key, pad1, sep, line);
    FirstFromIs(line, sep, 1, |key| + |pad1|);
  }

  /** A line that starts with a key whose first character is not a blank
      has no leading blanks. */
  lemma KeyStartsLine(key: string, line: string)
    requires key != [] && !IsBlank(key[0]) && |key| <= |line| && line[..|key|] == key
    ensures LeadingBlanks(line) == 0
  {
    assert line[0] == key[0];
    assert TrimStart(line) == line;
  }

  /** Between the key's first character and the separator that follows the
      padding there is no separator. */
  lemma SeparatorAfterKey(key: string, pad1: string, sep: char, line: string)
    requires !IsBlank(sep) && AllBlank(pad1)
    requires forall i :: 0 <= i < |key| ==> key[i] != sep
    requires |key| + |pad1| < |line| && line[..|key| + |pad1| + 1] == key + pad1 + [sep]
    ensures line[|key| + |pad1|] == sep
    ensures forall i :: 1 <= i < |key| + |pad1| ==> line[i] != sep
  {
    var head := key + pad1 + [sep];
    assert line[|key| + |pad1|] == head[|key| + |pad1|];
    forall i | 1 <= i < |key| + |pad1| ensures line[i] != sep {
      assert line[i] == head[i];
      if i < |key| {
        assert head[i] == key[i];
      } else {
        assert head[i] == pad1[i - |key|];
      }
    }
  }

  /** ... and the text around that separator, trimmed, is the key and the value. */
  lemma KeyAndValueRead(key: string, pad1: string, sep: char, pad2: string, value: string)
    requires AllBlank(pad1) && AllBlank(pad2)
    requires key != [] && !IsBlank(key[0]) && !IsBlank(key[|key| - 1])
    requires value == [] || (!IsBlank(value[0]) && !IsBlank(value[|value| - 1]))
    ensures var line := key + pad1 + [sep] + pad2 + value;
      KeyValue(line, 0, |key| + |pad1|) == (key, value)
  {
    var line := key + pad1 + [sep] + pad2 + value;
    var j := |key| + |pad1|;
    Regroup(key, pad1, sep, pad2, value);
    AroundSeparator(key + pad1, sep, pad2 + value);
    KeyRead(line, j, key, pad1);
    ValueRead(line, j, pad2, value);
  }

  lemma KeyRead(line: string, j: nat, key: string, pad1: string)
    requires j <= |line| && line[0..j] == key + pad1
    requires key != [] && !IsBlank(key[|key| - 1]) && AllBlank(pad1)
    ensures TrimEnd(line[0..j]) == key
  {
    TrimEndBlanksAfter(key, pad1);
  }

  lemma ValueRead(line: string, j: nat, pad2: string, value: string)
    requires j < |line| && line[j + 1..] == pad2 + value
    requires AllBlank(pad2) && (value == [] || (!IsBlank(value[0]) && !IsBlank(value[|value| - 1])))
    ensures Trim(line[j + 1..]) == value
  {
    TrimBlanksBefore(pad2, value);
  }

  lemma Regroup(key: string, pad1: string, sep: char, pad2: string, value: string)
    ensures key + pad1 + [sep] + pad2 + value == (key + pad1) + [sep] + (pad2 + value)
  {
  }

  /** The text on either side of a separator. */
  lemma AroundSeparator(before: string, sep: char, after: string)
    ensures var line := before + [sep] + after;
      line[0..|before|] == before && line[|before| + 1..] == after
  {
    var line := before + [sep] + after;
    assert line[0..|before|] == before;
    assert line[|before| + 1..] == after;
  }

  /** The regular case of `ParseLine`, unfolded. */
  lemma {:induction false} ParseLineAt(line: string, sep: char, m: nat, j: nat)
    requires !IsBlank(sep) && m == LeadingBlanks(line) && m < |line|
    requires FirstFrom(line, sep, m + 1) == Some(j)
    ensures ParseLine(line, sep) == Some(KeyValue(line, m, j))
  {
    assert ParseAfterBlanks(line, sep, m) == Some(KeyValue(line, m, j));
    assert ParseLine(line, sep) == ParseAfterBlanks(line, sep, m);
  }

  /** The lines of a hunk, in order. */
  function Lines(hunk: string): seq<string> {
    Split(hunk, "\n")
  }

  /** The (key, value) pairs the regular expression finds, in order. */
  function Entries(lines: seq<string>, sep: char): seq<(string, string)>
    requires !IsBlank(sep)
  {
    if lines == [] then []
    else
      var m := ParseLine(lines[|lines| - 1], sep);
      Entries(lines[..|lines| - 1], sep) + (if m.Some? then [(NormalizeKey(m.value.0), m.value.1)] else [])
  }

  /** The dictionary the pairs build when each is stored in turn. */
  function ToMap(pairs: seq<(string, string)>): map<string, string> {
    if pairs == [] then map[]
    else ToMap(pairs[..|pairs| - 1])[pairs[|pairs| - 1].0 := pairs[|pairs| - 1].1]
  }

  /** A key is in the dictionary iff some pair has it, and then its value is
      the value of the last such pair. */
  lemma {:induction false} LastWins(pairs: seq<(string, string)>, k: string)
    ensures k in ToMap(pairs) <==> exists i :: 0 <= i < |pairs| && pairs[i].0 == k
    ensures k in ToMap(pairs) ==>
      exists i :: 0 <= i < |pairs| && pairs[i].0 == k && ToMap(pairs)[k] == pairs[i].1
                  && forall j :: i < j < |pairs| ==> pairs[j].0 != k
    decreases |pairs|
  {
    if pairs != [] {
      var init := pairs[..|pairs| - 1];
      var last := |pairs| - 1;
      LastWins(init, k);
      if pairs[last].0 == k {
        assert ToMap(pairs)[k] == pairs[last].1;
      } else {
        assert k in ToMap(pairs) <==> k in ToMap(init);
        if k in ToMap(pairs) {
          var i :| 0 <= i < |init| && init[i].0 == k && ToMap(init)[k] == init[i].1
                   && forall j :: i < j < |init| ==> init[j].0 != k;
          assert pairs[i] == init[i];
          forall j | i < j < |pairs| ensures pairs[j].0 != k {
            if j < last {
              assert pairs[j] == init[j];
            }
          }
        } else {
          forall i | 0 <= i < |pairs| ensures pairs[i].0 != k {
            if i < last {
              assert pairs[i] == init[i];
            }
          }
        }
      }
    }
  }

  lemma EntriesStep(lines: seq<string>, i: nat, sep: char)
    requires !IsBlank(sep) && i < |lines|
    ensures var m := ParseLine(lines[i], sep);
      Entries(lines[..i + 1], sep)
        == Entries(lines[..i], sep) + (if m.Some? then [(NormalizeKey(m.value.0), m.value.1)] else [])
  {
    assert lines[..i + 1][..i] == lines[..i];
  }

  lemma ToMapStep(pairs: seq<(string, string)>, p: (string, string))
    ensures ToMap(pairs + [p]) == ToMap(pairs)[p.0 := p.1]
  {
    assert (pairs + [p])[..|pairs|] == pairs;
  }

  /** The dictionary `parse_hunk` returns for a hunk. */
  function Info(hunk: string, sep: char): map<string, string>
    requires !IsBlank(sep)
  {
    ToMap(Entries(Lines(hunk), sep))
  }

  lemma EntriesOfOne(line: string, sep: char)
    requires !IsBlank(sep)
    ensures var m := ParseLine(line, sep);
      Entries([line], sep) == if m.Some? then [(NormalizeKey(m.value.0), m.value.1)] else []
  {
    var lines: seq<string> := [line];
    assert lines[..0] == [];
  }

  lemma ToMapOfOne(key: string, value: string)
    ensures ToMap([(key, value)]) == map[key := value]
  {
    var pairs: seq<(string, string)> := [(key, value)];
    assert pairs[..0] == [];
  }

  /** A hunk of one matching line holds exactly that line's pair. */
  lemma SingleLineInfo(line: string, sep: char, key: string, value: string)
    requires !IsBlank(sep) && Lacks(line, '\n')
    requires ParseLine(line, sep) == Some((key, value))
    ensures Info(line, sep) == map[NormalizeKey(key) := value]
  {
    SplitWithoutChar(line, '\n');
    EntriesOfOne(line, sep);
    ToMapOfOne(NormalizeKey(key), value);
  }

  /** An empty first line adds no pair. */
  lemma {:induction false} EntriesAfterEmptyLine(lines: seq<string>, sep: char)
    requires !IsBlank(sep)
    ensures Entries([""] + lines, sep) == Entries(lines, sep)
    decreases |lines|
  {
    if lines == [] {
      EntriesOfOne("", sep);
    } else {
      var init := lines[..|lines| - 1];
      EntriesAfterEmptyLine(init, sep);
      assert ([""] + lines)[..|lines|] == [""] + init;
      assert ([""] + lines)[|lines|] == lines[|lines| - 1];
    }
  }

  /** A hunk that starts with a newline holds what the rest holds. */
  lemma InfoAfterNewline(hunk: string, sep: char)
    requires !IsBlank(sep)
    ensures Info("\n" + hunk, sep) == Info(hunk, sep)
  {
    var s := "\n" + hunk;
    assert s[..1] == "\n";
    assert Find(s, "\n") == Some(0);
    assert s[1..] == hunk;
    assert Lines(s) == [""] + Lines(hunk);
    EntriesAfterEmptyLine(Lines(hunk), sep);
  }

  /** One more line stores its pair, if it has one, over what came before. */
  lemma InfoStep(lines: seq<string>, i: nat, sep: char)
    requires !IsBlank(sep) && i < |lines|
    ensures var m := ParseLine(lines[i], sep);
      m.Some? ==> ToMap(Entries(lines[..i + 1], sep)) == ToMap(Entries(lines[..i], sep))[NormalizeKey(m.value.0) := m.value.1]
    ensures ParseLine(lines[i], sep).None? ==> Entries(lines[..i + 1], sep) == Entries(lines[..i], sep)
  {
    EntriesStep(lines, i, sep);
    var m := ParseLine(lines[i], sep);
    if m.Some? {
      ToMapStep(Entries(lines[..i], sep), (NormalizeKey(m.value.0), m.value.1));
    } else {
      assert Entries(lines[..i + 1], sep) == Entries(lines[..i], sep);
    }
  }

  /** `parse_hunk`'s loop: store each matching line's normalised key and
      trimmed value in turn. */
  method ParseHunk(hunk: string, sep: char) returns (info: map<string, string>)
    requires !IsBlank(sep)
    ensures info == Info(hunk, sep)
  {
    var lines := Lines(hunk);
    info := map[];
    var i := 0;
    while i < |lines|
      invariant 0 <= i <= |lines|
      invariant info == ToMap(Entries(lines[..i], sep))
    {
      var m := ParseLine(lines[i], sep);
      InfoStep(lines, i, sep);
      if m.Some? {
        info := info[NormalizeKey(m.value.0) := m.value.1];
      }
      i := i + 1;
    }
    assert lines[..|lines|] == lines;
  }
}
