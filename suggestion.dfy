/**
 * The language-model side of Searching_Agent_api.py: the prompt sent to the model,
 * the dataset description embedded in it, and the positional parser that turns the
 * model's free text into a category and a list of websites.
 */
module Suggestion {
  import opened Wrappers
  import opened Strings
  import Seqs

  /** What `parse_suggestion` returns: the pair `(category, websites)`. */
  datatype Suggestion = Suggestion(category: string, websites: seq<string>)

  /** `line.strip()` for every line. */
  function StrippedLines(lines: seq<string>): (r: seq<string>)
  {
    seq(|lines|, k requires 0 <= k < |lines| => Strip(lines[k]))
  }

  /** Marks the lines that are not blank once stripped (the `if line.strip()` filter). */
  function NonBlankMask(lines: seq<string>): (r: seq<bool>)
  {
    seq(|lines|, k requires 0 <= k < |lines| => Strip(lines[k]) != [])
  }

  /** `[line.strip() for line in lines if line.strip()]` */
  function NonBlankStripped(lines: seq<string>): (r: seq<string>)
    ensures |r| <= |lines|
    ensures forall w <- r :: w != [] && Stripped(w) && exists i :: 0 <= i < |lines| && w == Strip(lines[i])
  {
    var stripped := StrippedLines(lines);
    var mask := NonBlankMask(lines);
    var r := Seqs.Select(stripped, mask);
    Seqs.SelectAtTrueIndices(stripped, mask);
    var kept := Seqs.TrueIndices(mask);
    assert forall k :: 0 <= k < |r| ==> r[k] == Strip(lines[kept[k]]) && r[k] != [];
    r
  }

  /** `parse_suggestion`. It has no precondition: it is defined on every string, since
      splitting always yields a first line and the second colon-separated piece is only
      taken when that line holds a colon. */
  function ParseSuggestion(suggestion: string): (r: Suggestion)
    ensures |r.websites| <= |Split(suggestion, '\n')| - 1
    ensures forall w <- r.websites :: w != [] && Stripped(w) && '\n' !in w
    ensures Stripped(r.category) && ':' !in r.category && '\n' !in r.category
  {
    var lines := Split(suggestion, '\n');
    var category := if ':' in lines[0] then Strip(Split(lines[0], ':')[1]) else Strip(lines[0]);
    assert '\n' !in lines[0];
    SplitKeepsOut(lines[0], ':', '\n');
    Suggestion(category, NonBlankStripped(lines[1..]))
  }

  /** The category is the stripped text between the first and the second colon of the
      first line (or to its end when there is one colon), and the whole stripped first
      line when that line has no colon. */
  lemma CategoryBetweenFirstColons(suggestion: string)
    ensures var line := suggestion[..IndexOf(suggestion, '\n')];
            var i := IndexOf(line, ':');
            var after := if i < |line| then line[i + 1 ..] else [];
            ParseSuggestion(suggestion).category
              == if i < |line| then Strip(after[..IndexOf(after, ':')]) else Strip(line)
  {
    var line := suggestion[..IndexOf(suggestion, '\n')];
    SplitAtFirst(suggestion, '\n');
    assert Split(suggestion, '\n')[0] == line;
    var i := IndexOf(line, ':');
    if i < |line| {
      var after := line[i + 1 ..];
      SplitAtFirst(line, ':');
      SplitAtFirst(after, ':');
      assert Split(line, ':')[1] == Split(after, ':')[0];
    }
  }

  /** The websites are exactly the lines after the first that are not blank, each
      stripped, in their original order. */
  lemma WebsitesAreNonBlankLines(suggestion: string)
    ensures var tail := Split(suggestion, '\n')[1..];
            var kept := Seqs.TrueIndices(NonBlankMask(tail));
            var websites := ParseSuggestion(suggestion).websites;
            && |websites| == |kept|
            && (forall k :: 0 <= k < |kept| ==> kept[k] < |tail| && websites[k] == Strip(tail[kept[k]]))
            && (forall k, l :: 0 <= k < l < |kept| ==> kept[k] < kept[l])
            && (forall i :: 0 <= i < |tail| ==> (Strip(tail[i]) != [] <==> i in kept))
  {
    var tail := Split(suggestion, '\n')[1..];
    Seqs.SelectAtTrueIndices(StrippedLines(tail), NonBlankMask(tail));
    var kept := Seqs.TrueIndices(NonBlankMask(tail));
    forall i | 0 <= i < |tail| && i in kept ensures Strip(tail[i]) != [] {
      var k :| 0 <= k < |kept| && kept[k] == i;
      assert NonBlankMask(tail)[kept[k]];
    }
  }

  /** The prompt template of `get_category_and_websites`. */
  const PromptPrefix: string := "Given this dataset description: '"
  const PromptSuffix: string := "', suggest a category and 3 relevant websites to search for similar data."

  function Prompt(description: string): (p: string)
    ensures |p| == |PromptPrefix| + |description| + |PromptSuffix|
    ensures p[..|PromptPrefix|] == PromptPrefix
    ensures p[|p| - |PromptSuffix|..] == PromptSuffix
  {
    PromptPrefix + description + PromptSuffix
  }

  /** Reads the description back out of a prompt. */
  function DescriptionOfPrompt(p: string): (d: Option<string>)
    ensures d.Some? ==> |p| == |PromptPrefix| + |d.value| + |PromptSuffix|
  {
    if |p| >= |PromptPrefix| + |PromptSuffix|
       && p[..|PromptPrefix|] == PromptPrefix
       && p[|p| - |PromptSuffix|..] == PromptSuffix
    then Some(p[|PromptPrefix| .. |p| - |PromptSuffix|])
    else None
  }

  /** The prompt carries the whole description: nothing is lost or altered. */
  lemma PromptRoundTrip(description: string)
    ensures DescriptionOfPrompt(Prompt(description)) == Some(description)
  {
    var p := Prompt(description);
    assert p[|PromptPrefix| .. |p| - |PromptSuffix|] == description;
  }

  /** `get_category_and_websites`, with the language model (`query_llama`, sampled and
      therefore arbitrary) passed in as the function from prompt to generated text. */
  function GetCategoryAndWebsites(description: string, queryLlama: string -> string): (r: Suggestion)
    ensures r == ParseSuggestion(queryLlama(Prompt(description)))
    ensures forall w <- r.websites :: w != [] && Stripped(w) && '\n' !in w
  {
    ParseSuggestion(queryLlama(Prompt(description)))
  }

  /** The module-level `dataset_description`: the column names of the sample, joined by ", ". */
  const DescriptionPrefix: string := "A dataset with columns: "

  function DatasetDescription(columns: seq<string>): (d: string)
    ensures |d| >= |DescriptionPrefix|
    ensures d[..|DescriptionPrefix|] == DescriptionPrefix
  {
    DescriptionPrefix + Join(columns, ", ")
  }

  /** The one leading space `", "` leaves on every piece after the first. */
  function DropSpace(piece: string): string {
    if piece != [] && piece[0] == ' ' then piece[1..] else piece
  }

  /** Reads the column names back out of a dataset description. */
  function ColumnsOfDescription(d: string): (cols: Option<seq<string>>)
  {
    if |d| >= |DescriptionPrefix| && d[..|DescriptionPrefix|] == DescriptionPrefix then
      var pieces := Split(d[|DescriptionPrefix|..], ',');
      Some([pieces[0]] + seq(|pieces| - 1, k requires 0 <= k < |pieces| - 1 => DropSpace(pieces[k + 1])))
    else None
  }

  /** The pieces `", ".join` writes, seen as pieces joined by a bare comma. */
  function Spaced(columns: seq<string>): (r: seq<string>)
    requires |columns| >= 1
  {
    [columns[0]] + seq(|columns| - 1, k requires 0 <= k < |columns| - 1 => " " + columns[k + 1])
  }

  lemma {:induction false} JoinCommaSpace(columns: seq<string>)
    requires |columns| >= 1
    ensures Join(columns, ", ") == Join(Spaced(columns), ",")
    decreases |columns|
  {
    if |columns| > 1 {
      var rest := columns[1..];
      JoinCommaSpace(rest);
      var sp := Spaced(columns);
      assert sp[1..] == [" " + rest[0]] + Spaced(rest)[1..];
      if |rest| == 1 {
        assert Join(sp[1..], ",") == " " + rest[0];
      } else {
        assert Join(sp[1..], ",") == " " + rest[0] + "," + Join(Spaced(rest)[1..], ",");
        assert Spaced(rest)[1..] == sp[2..];
      }
    }
  }

  /** Every column name can be read back from the description, in order, as long as no
      name holds a comma. */
  lemma DescriptionRoundTrip(columns: seq<string>)
    requires |columns| >= 1
    requires forall c <- columns :: ',' !in c
    ensures ColumnsOfDescription(DatasetDescription(columns)) == Some(columns)
  {
    var d := DatasetDescription(columns);
    var sp := Spaced(columns);
    JoinCommaSpace(columns);
    assert forall p <- sp :: ',' !in p by {
      forall k | 0 <= k < |sp| ensures ',' !in sp[k] {
        if k > 0 { assert sp[k] == " " + columns[k]; }
      }
    }
    SplitJoin(sp, ',');
    assert d[|DescriptionPrefix|..] == Join(sp, [',']);
    var pieces := Split(d[|DescriptionPrefix|..], ',');
    assert pieces == sp;
    assert ColumnsOfDescription(d).Some?;
    var back := ColumnsOfDescription(d).value;
    assert |back| == |columns|;
    forall k | 0 <= k < |columns| ensures back[k] == columns[k] {
      if k > 0 {
        assert sp[k] == " " + columns[k];
        assert back[k] == DropSpace(pieces[k]);
        assert (" " + columns[k])[1..] == columns[k];
      }
    }
    assert back == columns;
  }
}
