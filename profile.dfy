/** The initials shown on the profile page of the travel-planning app
    (app/profile/page.tsx): the upper-cased first character of each
    space-separated piece of the user's name. */
module Profile {
  import opened Text

  /** `n[0]` of a piece; for an empty piece it is undefined, which `join`
      writes as "". */
  function FirstChar(piece: string): (r: string)
    ensures |r| == if piece == "" then 0 else 1
    ensures piece != "" ==> r == [piece[0]]
  {
    if piece == "" then "" else [piece[0]]
  }

  function FirstChars(pieces: seq<string>): (r: seq<string>)
    ensures |r| == |pieces|
    ensures forall i :: 0 <= i < |pieces| ==> r[i] == FirstChar(pieces[i])
  {
    seq(|pieces|, i requires 0 <= i < |pieces| => FirstChar(pieces[i]))
  }

  /** `user.name.split(" ").map((n) => n[0]).join("").toUpperCase()`: one
      character per non-empty piece, and no lower-case ASCII letter left. */
  function Initials(name: string): (r: string)
    ensures |r| == NonEmpty(Split(name, ' '))
    ensures forall i :: 0 <= i < |r| ==> !('a' <= r[i] <= 'z')
  {
    JoinNoSeparator(FirstChars(Split(name, ' ')));
    ConcatFirstCharsLength(Split(name, ' '));
    Upper(Join(FirstChars(Split(name, ' ')), ""))
  }

  /** The pieces written one after another. */
  function Concat(parts: seq<string>): string
  {
    if parts == [] then "" else parts[0] + Concat(parts[1..])
  }

  lemma {:induction false} JoinNoSeparator(parts: seq<string>)
    ensures Join(parts, "") == Concat(parts)
    decreases |parts|
  {
    if |parts| == 1 {
      assert Concat(parts[1..]) == "";
    } else if |parts| > 1 {
      JoinNoSeparator(parts[1..]);
    }
  }

  function NonEmpty(pieces: seq<string>): nat
  {
    if pieces == [] then 0 else (if pieces[0] == "" then 0 else 1) + NonEmpty(pieces[1..])
  }

  lemma {:induction false} ConcatFirstCharsLength(pieces: seq<string>)
    ensures |Concat(FirstChars(pieces))| == NonEmpty(pieces)
    decreases |pieces|
  {
    if pieces != [] {
      assert FirstChars(pieces)[1..] == FirstChars(pieces[1..]);
      ConcatFirstCharsLength(pieces[1..]);
    }
  }

  lemma EmptyNameNoInitials()
    ensures Initials("") == ""
  {
    assert Split("", ' ') == [""];
    assert FirstChars([""]) == [""];
  }

  /** Splitting words joined by single spaces gives the words back. */
  lemma {:induction false} SplitJoin(words: seq<string>)
    requires words != []
    requires forall i, j :: 0 <= i < |words| && 0 <= j < |words[i]| ==> words[i][j] != ' '
    ensures Split(Join(words, " "), ' ') == words
    decreases |words|
  {
    if |words| == 1 {
      SplitNoSeparator(words[0], ' ');
    } else {
      SplitJoin(words[1..]);
      assert Join(words, " ") == words[0] + [' '] + Join(words[1..], " ");
      SplitAfterWord(words[0], ' ', Join(words[1..], " "));
    }
  }

  lemma {:induction false} ConcatOfFirsts(words: seq<string>)
    requires forall i :: 0 <= i < |words| ==> words[i] != ""
    ensures Concat(FirstChars(words)) == seq(|words|, i requires 0 <= i < |words| => words[i][0])
    decreases |words|
  {
    if words != [] {
      assert FirstChars(words)[1..] == FirstChars(words[1..]);
      ConcatOfFirsts(words[1..]);
    }
  }

  /** For a name made of words separated by single spaces, the initials are
      the words' first letters, upper-cased, in order. */
  lemma InitialsOfWords(words: seq<string>)
    requires words != []
    requires forall i :: 0 <= i < |words| ==> words[i] != ""
    requires forall i, j :: 0 <= i < |words| && 0 <= j < |words[i]| ==> words[i][j] != ' '
    ensures Initials(Join(words, " ")) == Upper(seq(|words|, i requires 0 <= i < |words| => words[i][0]))
  {
    SplitJoin(words);
    JoinNoSeparator(FirstChars(words));
    ConcatOfFirsts(words);
  }
}
