/** Log lines made of an optional tag and `key=value` words separated by single spaces. */
module LogLines {
  import opened Text

  datatype Field = Field(key: string, value: string)

  datatype Line = Line(tag: Option<string>, fields: seq<Field>)

  function Word(f: Field): string {
    f.key + "=" + f.value
  }

  function Words(fields: seq<Field>): (r: seq<string>)
    ensures |r| == |fields|
  {
    if fields == [] then [] else [Word(fields[0])] + Words(fields[1..])
  }

  function Print(line: Line): string {
    Join((if line.tag.Some? then [line.tag.value] else []) + Words(line.fields), " ")
  }

  function ParseWord(word: string): Field
    requires !Avoids(word, '=')
  {
    var i := IndexOf(word, '=');
    Field(word[..i], word[i + 1..])
  }

  function ParseWords(words: seq<string>): Option<seq<Field>> {
    if words == [] then Some([])
    else if Avoids(words[0], '=') then None
    else
      var rest := ParseWords(words[1..]);
      if rest.None? then None else Some([ParseWord(words[0])] + rest.value)
  }

  /** Reads a line back: a first word without "=" is the tag, every other word is a field. */
  function Parse(text: string): Option<Line> {
    var words := Split(text, ' ');
    var tagged := Avoids(words[0], '=');
    var fields := ParseWords(if tagged then words[1..] else words);
    if fields.None? then None else Some(Line(if tagged then Some(words[0]) else None, fields.value))
  }

  predicate Plain(s: string) {
    Avoids(s, ' ') && Avoids(s, '=')
  }

  predicate PlainFields(fields: seq<Field>) {
    forall i | 0 <= i < |fields| :: Plain(fields[i].key) && Plain(fields[i].value)
  }

  lemma WordParses(f: Field)
    requires Plain(f.key)
    ensures !Avoids(Word(f), '=') && ParseWord(Word(f)) == f
  {
    var w := Word(f);
    assert w[..|f.key|] == f.key;
    assert w[|f.key|] == '=';
    IndexOfUnique(w, '=', |f.key|);
    assert w[|f.key| + 1..] == f.value;
  }

  lemma WordAvoidsSpace(f: Field)
    requires Plain(f.key) && Plain(f.value)
    ensures Avoids(Word(f), ' ')
  {
  }

  lemma {:induction false} WordsParse(fields: seq<Field>)
    requires PlainFields(fields)
    ensures ParseWords(Words(fields)) == Some(fields)
    ensures AllAvoid(Words(fields), ' ')
  {
    hide Word, ParseWord, Avoids;
    if fields != [] {
      WordsParse(fields[1..]) by { TailPlain(fields); }
      WordParses(fields[0]);
      WordAvoidsSpace(fields[0]);
      assert Words(fields)[1..] == Words(fields[1..]);
      assert fields == [fields[0]] + fields[1..];
    }
  }

  lemma TailPlain(fields: seq<Field>)
    requires PlainFields(fields) && fields != []
    ensures PlainFields(fields[1..])
  {
    hide Plain;
  }

  /** A printed line whose keys and values are plain reads back as itself. */
  lemma PrintParses(line: Line)
    requires PlainFields(line.fields) && (line.tag.Some? ==> Plain(line.tag.value))
    requires line.tag.Some? || line.fields != []
    ensures Parse(Print(line)) == Some(line)
  {
    hide Word, ParseWord, PlainFields, Split, Join;
    var words := (if line.tag.Some? then [line.tag.value] else []) + Words(line.fields);
    WordsParse(line.fields);
    hide Words;
    assert AllAvoid(words, ' ');
    SplitJoin(words, ' ');
    if line.tag.Some? {
      assert words[1..] == Words(line.fields);
    } else {
      FirstWordHasEquals(line.fields);
      assert words == Words(line.fields);
    }
    hide ParseWords;
  }

  lemma FirstWordHasEquals(fields: seq<Field>)
    requires PlainFields(fields) && fields != []
    ensures !Avoids(Words(fields)[0], '=')
  {
    WordParses(fields[0]);
  }
}
