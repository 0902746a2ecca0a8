/** The walk over a DNS response that collects its TXT records, and the format it accepts: sections 3.3.14, 4.1 and
    4.1.4 of RFC 1035. */
module Dns {
  import opened Core
  import opened Endian

  const TXT: nat := 16
  const IN: nat := 1

  function Two(w: nat): (s: bytes)
    requires w < TWO_TO_THE_16
    ensures |s| == 2
  {
    [w / 256, w % 256]
  }

  lemma WordTwo(w: nat)
    requires w < TWO_TO_THE_16
    ensures Word(Two(w)[0], Two(w)[1]) == w
  {
  }

  lemma TwoWord(high: byte, low: byte)
    ensures Two(Word(high, low)) == [high, low]
  {
  }

  // The walk, on what is left of the message. None is any of the source's exceptions.

  function SkipName(s: bytes): (r: Option<bytes>)
    ensures r.Some? ==> |r.value| < |s| && r.value == s[|s| - |r.value|..]
    decreases |s|
  {
    if s == [] then None
    else if s[0] == 0 then Some(s[1..])
    else if s[0] >= 0xc0 then if |s| < 2 then None else Some(s[2..])
    else if s[0] >= 0x40 || 1 + s[0] as int > |s| then None
    else SkipName(s[1 + s[0] as int..])
  }

  function SkipQuestions(n: nat, s: bytes): Option<bytes> {
    if n == 0 then Some(s)
    else
      var rest :- SkipName(s);
      if |rest| < 4 then None else SkipQuestions(n - 1, rest[4..])
  }

  /** The concatenated character-strings that fill the data of a TXT record. */
  function Strings(data: bytes): Option<bytes>
    decreases |data|
  {
    if data == [] then Some([])
    else if 1 + data[0] as int > |data| then None
    else
      var rest :- Strings(data[1 + data[0] as int..]);
      Some(data[1..1 + data[0] as int] + rest)
  }

  /** One answer: the value of a TXT record of class IN, nothing for any other. */
  function ReadAnswer(s: bytes): Option<(seq<bytes>, bytes)> {
    var t :- SkipName(s);
    if |t| < 10 || |t| < 10 + Word(t[8], t[9]) then None
    else
      var data, rest := t[10..10 + Word(t[8], t[9])], t[10 + Word(t[8], t[9])..];
      if Word(t[0], t[1]) == TXT && Word(t[2], t[3]) == IN then
        var value :- Strings(data);
        Some(([value], rest))
      else Some(([], rest))
  }

  function ReadAnswers(n: nat, s: bytes): Option<seq<bytes>> {
    if n == 0 then Some([])
    else
      var (value, rest) :- ReadAnswer(s);
      var values :- ReadAnswers(n - 1, rest);
      Some(value + values)
  }

  function Walk(m: bytes): Option<seq<bytes>> {
    if |m| < 12 then None
    else
      var rest :- SkipQuestions(Word(m[4], m[5]), m[12..]);
      ReadAnswers(Word(m[6], m[7]), rest)
  }

  // The format.

  /** Labels, then the root or a pointer. */
  datatype Name = Root | Pointer(high: byte, low: byte) | Label(text: bytes, parent: Name)

  predicate GoodName(n: Name) {
    match n
    case Root => true
    case Pointer(high, _) => high >= 0xc0
    case Label(text, parent) => 1 <= |text| <= 63 && GoodName(parent)
  }

  function NameBytes(n: Name): bytes
    requires GoodName(n)
  {
    match n
    case Root => [0]
    case Pointer(high, low) => [high, low]
    case Label(text, parent) => [|text|] + text + NameBytes(parent)
  }

  datatype Question = Question(name: Name, fields: bytes)

  predicate GoodQuestion(q: Question) { GoodName(q.name) && |q.fields| == 4 }

  predicate GoodQuestions(qs: seq<Question>) { forall i | 0 <= i < |qs| :: GoodQuestion(qs[i]) }

  function QuestionsBytes(qs: seq<Question>): bytes
    requires GoodQuestions(qs)
  {
    if qs == [] then [] else NameBytes(qs[0].name) + qs[0].fields + QuestionsBytes(qs[1..])
  }

  /** The data of a record: character-strings for TXT records of class IN, anything for others. */
  datatype Answer =
    | Text(name: Name, ttl: bytes, strings: seq<bytes>)
    | Other(name: Name, kind: nat, class_: nat, ttl: bytes, data: bytes)

  predicate Short(strings: seq<bytes>) { forall i | 0 <= i < |strings| :: |strings[i]| < 256 }

  function StringsBytes(strings: seq<bytes>): bytes
    requires Short(strings)
  {
    if strings == [] then [] else [|strings[0]|] + strings[0] + StringsBytes(strings[1..])
  }

  predicate GoodAnswer(a: Answer) {
    && GoodName(a.name)
    && |a.ttl| == 4
    && match a
       case Text(_, _, strings) => Short(strings) && |StringsBytes(strings)| < TWO_TO_THE_16
       case Other(_, kind, class_, _, data) =>
         && kind < TWO_TO_THE_16 && class_ < TWO_TO_THE_16 && !(kind == 16 && class_ == 1)
         && |data| < TWO_TO_THE_16
  }

  function AnswerBytes(a: Answer): bytes
    requires GoodAnswer(a)
  {
    match a
    case Text(name, ttl, strings) => NameBytes(name) + Fixed(16, 1, ttl, StringsBytes(strings))
    case Other(name, kind, class_, ttl, data) => NameBytes(name) + Fixed(kind, class_, ttl, data)
  }

  function Fixed(kind: nat, class_: nat, ttl: bytes, data: bytes): bytes
    requires kind < TWO_TO_THE_16 && class_ < TWO_TO_THE_16 && |data| < TWO_TO_THE_16
  {
    Two(kind) + Two(class_) + ttl + Two(|data|) + data
  }

  predicate GoodAnswers(answers: seq<Answer>) { forall i | 0 <= i < |answers| :: GoodAnswer(answers[i]) }

  function AnswersBytes(answers: seq<Answer>): bytes
    requires GoodAnswers(answers)
  {
    if answers == [] then [] else AnswerBytes(answers[0]) + AnswersBytes(answers[1..])
  }

  /** The texts of the answers, in order. */
  function Texts(answers: seq<Answer>): seq<bytes> {
    if answers == [] then []
    else (if answers[0].Text? then [Concat(answers[0].strings)] else []) + Texts(answers[1..])
  }

  /** `id` is the first four bytes, `counts` the other two section counts; `tail` is whatever follows the answers. */
  datatype Message = Message(id: bytes, counts: bytes, questions: seq<Question>, answers: seq<Answer>, tail: bytes)

  ghost predicate GoodMessage(m: Message) {
    && |m.id| == 4 && |m.counts| == 4
    && |m.questions| < TWO_TO_THE_16 && |m.answers| < TWO_TO_THE_16
    && GoodQuestions(m.questions)
    && GoodAnswers(m.answers)
  }

  ghost function MessageBytes(m: Message): bytes
    requires GoodMessage(m)
  {
    m.id + Two(|m.questions|) + Two(|m.answers|) + m.counts
    + (QuestionsBytes(m.questions) + (AnswersBytes(m.answers) + m.tail))
  }

  // Every well-formed message is read.

  lemma SkipsEnd(n: Name, rest: bytes)
    requires GoodName(n) && !n.Label?
    ensures SkipName(NameBytes(n) + rest) == Some(rest)
  {
    var s := NameBytes(n) + rest;
    if n.Root? {
      assert s[0] == 0 && s[1..] == rest;
    } else {
      assert s[0] == n.high && |s| >= 2 && s[2..] == rest;
    }
  }

  lemma SkipsLabel(text: bytes, tail: bytes)
    requires 1 <= |text| <= 63
    ensures SkipName([|text|] + text + tail) == SkipName(tail)
  {
    var s := [|text|] + text + tail;
    assert s[0] == |text| && s[1 + |text|..] == tail;
  }

  lemma {:induction false} SkipsName(n: Name, rest: bytes)
    requires GoodName(n)
    ensures SkipName(NameBytes(n) + rest) == Some(rest)
  {
    hide SkipName;
    if n.Label? {
      SkipsLabel(n.text, NameBytes(n.parent) + rest);
      AppendAssociative([|n.text|] + n.text, NameBytes(n.parent), rest);
      SkipsName(n.parent, rest);
    } else {
      SkipsEnd(n, rest);
    }
  }

  lemma QuestionsCons(q: Question, more: seq<Question>, rest: bytes)
    requires GoodQuestion(q) && GoodQuestions(more)
    ensures GoodQuestions([q] + more)
    ensures QuestionsBytes([q] + more) + rest == NameBytes(q.name) + (q.fields + (QuestionsBytes(more) + rest))
  {
    hide NameBytes, GoodName;
    assert ([q] + more)[1..] == more;
    AppendAssociative(NameBytes(q.name) + q.fields, QuestionsBytes(more), rest);
    AppendAssociative(NameBytes(q.name), q.fields, QuestionsBytes(more) + rest);
  }

  lemma {:induction false} SkipsQuestions(qs: seq<Question>, rest: bytes)
    requires GoodQuestions(qs)
    ensures SkipQuestions(|qs|, QuestionsBytes(qs) + rest) == Some(rest)
  {
    if qs == [] {
      assert QuestionsBytes(qs) + rest == rest;
    } else {
      var q, more := qs[0], qs[1..];
      assert qs == [q] + more;
      QuestionsCons(q, more, rest);
      hide GoodName, SkipName, NameBytes, QuestionsBytes;
      var after := QuestionsBytes(more) + rest;
      SkipsName(q.name, q.fields + after);
      assert (q.fields + after)[4..] == after;
      SkipsQuestions(more, rest);
    }
  }

  lemma {:induction false} ReadsStrings(strings: seq<bytes>)
    requires Short(strings)
    ensures Strings(StringsBytes(strings)) == Some(Concat(strings))
  {
    if strings != [] {
      var first, rest := strings[0], StringsBytes(strings[1..]);
      var all := StringsBytes(strings);
      assert all == [|first|] + first + rest;
      assert all[1..1 + |first|] == first && all[1 + |first|..] == rest;
      ReadsStrings(strings[1..]);
    }
  }

  lemma FixedFields(kind: nat, class_: nat, ttl: bytes, data: bytes, rest: bytes)
    requires kind < TWO_TO_THE_16 && class_ < TWO_TO_THE_16 && |data| < TWO_TO_THE_16 && |ttl| == 4
    ensures var t := Fixed(kind, class_, ttl, data) + rest;
            && |t| == 10 + |data| + |rest|
            && Word(t[0], t[1]) == kind && Word(t[2], t[3]) == class_ && Word(t[8], t[9]) == |data|
            && t[10..10 + |data|] == data && t[10 + |data|..] == rest
  {
    hide Word, Two;
    WordTwo(kind);
    WordTwo(class_);
    WordTwo(|data|);
    var t := Fixed(kind, class_, ttl, data) + rest;
    assert t[0] == Two(kind)[0] && t[1] == Two(kind)[1] && t[2] == Two(class_)[0] && t[3] == Two(class_)[1];
    assert t[8] == Two(|data|)[0] && t[9] == Two(|data|)[1];
  }

  lemma ReadsAnswer(a: Answer, rest: bytes)
    requires GoodAnswer(a)
    ensures ReadAnswer(AnswerBytes(a) + rest) == Some((if a.Text? then [Concat(a.strings)] else [], rest))
  {
    hide GoodName, SkipName, NameBytes, Strings, StringsBytes, Concat, Word, Two, Fixed;
    match a {
      case Text(name, ttl, strings) =>
        var data := StringsBytes(strings);
        FixedFields(TXT, IN, ttl, data, rest);
        SkipsName(name, Fixed(TXT, IN, ttl, data) + rest);
        AppendAssociative(NameBytes(name), Fixed(TXT, IN, ttl, data), rest);
        ReadsStrings(strings);
      case Other(name, kind, class_, ttl, data) =>
        FixedFields(kind, class_, ttl, data, rest);
        SkipsName(name, Fixed(kind, class_, ttl, data) + rest);
        AppendAssociative(NameBytes(name), Fixed(kind, class_, ttl, data), rest);
    }
  }

  lemma {:induction false} ReadsAnswers(answers: seq<Answer>, rest: bytes)
    requires GoodAnswers(answers)
    ensures ReadAnswers(|answers|, AnswersBytes(answers) + rest) == Some(Texts(answers))
  {
    if answers != [] {
      hide GoodAnswer, ReadAnswer, AnswerBytes, AnswersBytes, Texts, Concat;
      var a, more := answers[0], answers[1..];
      assert answers == [a] + more;
      AnswersCons(a, more, rest);
      ReadsAnswer(a, AnswersBytes(more) + rest);
      ReadsAnswers(more, rest);
    }
  }

  lemma WalksMessage(m: Message)
    requires GoodMessage(m)
    ensures Walk(MessageBytes(m)) == Some(Texts(m.answers))
  {
    hide GoodQuestions, GoodAnswers, SkipQuestions, ReadAnswers, QuestionsBytes, AnswersBytes, Texts, Word, Two;
    var after := AnswersBytes(m.answers) + m.tail;
    SkipsQuestions(m.questions, after);
    ReadsAnswers(m.answers, m.tail);
    WordTwo(|m.questions|);
    WordTwo(|m.answers|);
    var all := MessageBytes(m);
    assert all[4] == Two(|m.questions|)[0] && all[5] == Two(|m.questions|)[1];
    assert all[6] == Two(|m.answers|)[0] && all[7] == Two(|m.answers|)[1];
    assert all[12..] == QuestionsBytes(m.questions) + after;
  }

  // Everything that is read is a well-formed message.

  lemma LabelBytes(s: bytes, parent: Name, last: bytes)
    requires s != [] && 1 <= s[0] <= 63 && 1 + s[0] as int <= |s|
    requires GoodName(parent) && s[1 + s[0] as int..] == NameBytes(parent) + last
    ensures var n := Label(s[1..1 + s[0] as int], parent); GoodName(n) && s == NameBytes(n) + last
  {
    var k := 1 + s[0] as int;
    var n := Label(s[1..k], parent);
    assert |s[1..k]| == s[0];
    assert NameBytes(n) == ([s[0]] + s[1..k]) + NameBytes(parent);
    hide NameBytes;
    AppendAssociative([s[0]] + s[1..k], NameBytes(parent), last);
    assert s == [s[0]] + s[1..k] + s[k..];
  }

  lemma {:induction false} NameOf(s: bytes) returns (n: Name)
    requires SkipName(s).Some?
    ensures GoodName(n) && s == NameBytes(n) + SkipName(s).value
    decreases |s|
  {
    if s[0] == 0 {
      n := Root;
    } else if s[0] >= 0xc0 {
      n := Pointer(s[0], s[1]);
    } else {
      var k := 1 + s[0] as int;
      var last := SkipName(s).value;
      assert SkipName(s[k..]) == Some(last);
      hide SkipName, NameBytes;
      var parent := NameOf(s[k..]);
      n := Label(s[1..k], parent);
      LabelBytes(s, parent, last);
    }
  }

  /** Questions and the rest that the skipping of `s` stands for. */
  ghost predicate QuestionsAre(qs: seq<Question>, n: nat, s: bytes) {
    && SkipQuestions(n, s).Some?
    && |qs| == n && GoodQuestions(qs) && s == QuestionsBytes(qs) + SkipQuestions(n, s).value
  }

  lemma QuestionsGlue(name: Name, rest: bytes, more: seq<Question>, n: nat, s: bytes)
    requires n > 0 && GoodName(name) && s == NameBytes(name) + rest && |rest| >= 4
    requires SkipQuestions(n, s) == SkipQuestions(n - 1, rest[4..]) && QuestionsAre(more, n - 1, rest[4..])
    ensures QuestionsAre([Question(name, rest[..4])] + more, n, s)
  {
    hide GoodName, NameBytes, SkipQuestions, QuestionsBytes, GoodQuestions;
    QuestionsCons(Question(name, rest[..4]), more, SkipQuestions(n, s).value);
    assert rest == rest[..4] + rest[4..];
  }

  lemma NoQuestions(s: bytes)
    ensures QuestionsAre([], 0, s)
  {
    hide GoodQuestion, SkipName;
    assert [] + s == s;
  }

  lemma {:induction false} QuestionsOf(n: nat, s: bytes) returns (qs: seq<Question>)
    requires SkipQuestions(n, s).Some?
    ensures QuestionsAre(qs, n, s)
  {
    hide GoodName, NameBytes, QuestionsBytes, GoodQuestions, QuestionsAre, SkipName;
    if n == 0 {
      qs := [];
      NoQuestions(s);
    } else {
      var rest := SkipName(s).value;
      assert SkipQuestions(n, s) == SkipQuestions(n - 1, rest[4..]);
      hide SkipQuestions;
      var name := NameOf(s);
      var more := QuestionsOf(n - 1, rest[4..]);
      qs := [Question(name, rest[..4])] + more;
      QuestionsGlue(name, rest, more, n, s);
    }
  }

  lemma StringsCons(first: bytes, more: seq<bytes>)
    requires |first| < 256 && Short(more)
    ensures Short([first] + more) && StringsBytes([first] + more) == [|first|] + first + StringsBytes(more)
    ensures Concat([first] + more) == first + Concat(more)
  {
    assert ([first] + more)[1..] == more;
  }

  lemma NoStrings()
    ensures Short([]) && StringsBytes([]) == [] && Concat([]) == []
  {
  }

  lemma {:induction false} StringsOf(data: bytes) returns (strings: seq<bytes>)
    requires Strings(data).Some?
    ensures Short(strings) && StringsBytes(strings) == data && Concat(strings) == Strings(data).value
    decreases |data|
  {
    hide StringsBytes, Concat, Short;
    if data == [] {
      strings := [];
      NoStrings();
    } else {
      var k := 1 + data[0] as int;
      assert Strings(data) == Some(data[1..k] + Strings(data[k..]).value);
      hide Strings;
      var tail := StringsOf(data[k..]);
      strings := [data[1..k]] + tail;
      assert |data[1..k]| == data[0] && data == [data[0]] + data[1..k] + data[k..];
      StringsCons(data[1..k], tail);
    }
  }

  lemma FixedOf(t: bytes)
    requires |t| >= 10 && |t| >= 10 + Word(t[8], t[9])
    ensures var k := 10 + Word(t[8], t[9]);
            t == Fixed(Word(t[0], t[1]), Word(t[2], t[3]), t[4..8], t[10..k]) + t[k..]
  {
    TwoWord(t[0], t[1]);
    TwoWord(t[2], t[3]);
    TwoWord(t[8], t[9]);
    hide Word, Two;
    var k := 10 + Word(t[8], t[9]);
    assert t == [t[0], t[1]] + [t[2], t[3]] + t[4..8] + [t[8], t[9]] + t[10..k] + t[k..];
  }

  lemma AnswerOf(s: bytes) returns (a: Answer)
    requires ReadAnswer(s).Some?
    ensures GoodAnswer(a) && s == AnswerBytes(a) + ReadAnswer(s).value.1
    ensures ReadAnswer(s).value.0 == if a.Text? then [Concat(a.strings)] else []
  {
    hide GoodName, NameBytes, Strings, StringsBytes, Concat, Word, Two, Fixed, SkipName;
    var name := NameOf(s);
    var t := SkipName(s).value;
    FixedOf(t);
    var k := 10 + Word(t[8], t[9]);
    if Word(t[0], t[1]) == TXT && Word(t[2], t[3]) == IN {
      var strings := StringsOf(t[10..k]);
      a := Text(name, t[4..8], strings);
    } else {
      a := Other(name, Word(t[0], t[1]), Word(t[2], t[3]), t[4..8], t[10..k]);
    }
    AppendAssociative(NameBytes(name), Fixed(Word(t[0], t[1]), Word(t[2], t[3]), t[4..8], t[10..k]), t[k..]);
  }

  lemma AnswersCons(a: Answer, more: seq<Answer>, rest: bytes)
    requires GoodAnswer(a) && GoodAnswers(more)
    ensures GoodAnswers([a] + more)
    ensures AnswersBytes([a] + more) + rest == AnswerBytes(a) + (AnswersBytes(more) + rest)
    ensures Texts([a] + more) == (if a.Text? then [Concat(a.strings)] else []) + Texts(more)
  {
    hide AnswerBytes, GoodAnswer, Concat;
    assert ([a] + more)[1..] == more;
    AppendAssociative(AnswerBytes(a), AnswersBytes(more), rest);
  }

  lemma AnswersStep(n: nat, s: bytes) returns (value: seq<bytes>, rest: bytes)
    requires n > 0 && ReadAnswers(n, s).Some?
    ensures ReadAnswer(s) == Some((value, rest)) && ReadAnswers(n - 1, rest).Some?
    ensures ReadAnswers(n, s).value == value + ReadAnswers(n - 1, rest).value
  {
    hide ReadAnswer;
    value, rest := ReadAnswer(s).value.0, ReadAnswer(s).value.1;
  }

  /** Answers and a tail that the reading of `s` stands for. */
  ghost predicate AnswersAre(answers: seq<Answer>, tail: bytes, n: nat, s: bytes) {
    && ReadAnswers(n, s).Some?
    && |answers| == n && GoodAnswers(answers) && s == AnswersBytes(answers) + tail
    && Texts(answers) == ReadAnswers(n, s).value
  }

  lemma AnswersGlue(a: Answer, more: seq<Answer>, tail: bytes, n: nat, s: bytes, value: seq<bytes>, rest: bytes)
    requires n > 0 && ReadAnswers(n, s).Some? && GoodAnswer(a) && s == AnswerBytes(a) + rest
    requires value == (if a.Text? then [Concat(a.strings)] else [])
    requires AnswersAre(more, tail, n - 1, rest) && ReadAnswers(n, s).value == value + ReadAnswers(n - 1, rest).value
    ensures AnswersAre([a] + more, tail, n, s)
  {
    hide GoodAnswer, GoodAnswers, ReadAnswers, AnswerBytes, AnswersBytes, Texts, Concat;
    AnswersCons(a, more, tail);
  }

  lemma NoAnswers(s: bytes)
    ensures AnswersAre([], s, 0, s)
  {
    hide GoodAnswer, ReadAnswer, AnswerBytes, Concat;
    assert [] + s == s;
  }

  lemma {:induction false} AnswersOf(n: nat, s: bytes) returns (answers: seq<Answer>, tail: bytes)
    requires ReadAnswers(n, s).Some?
    ensures AnswersAre(answers, tail, n, s)
  {
    hide GoodAnswer, GoodAnswers, ReadAnswer, ReadAnswers, AnswerBytes, AnswersBytes, Texts, Concat, AnswersAre;
    if n == 0 {
      answers, tail := [], s;
      NoAnswers(s);
    } else {
      var value, rest := AnswersStep(n, s);
      var a := AnswerOf(s);
      var more;
      more, tail := AnswersOf(n - 1, rest);
      answers := [a] + more;
      AnswersGlue(a, more, tail, n, s, value, rest);
    }
  }

  lemma MessageOf(b: bytes) returns (m: Message)
    requires Walk(b).Some?
    ensures GoodMessage(m) && MessageBytes(m) == b && Texts(m.answers) == Walk(b).value
  {
    hide GoodQuestions, GoodAnswers, SkipQuestions, ReadAnswers, QuestionsBytes, AnswersBytes, Texts, Word, Two;
    var q, n := Word(b[4], b[5]), Word(b[6], b[7]);
    var questions := QuestionsOf(q, b[12..]);
    var rest := SkipQuestions(q, b[12..]).value;
    var answers, tail := AnswersOf(n, rest);
    m := Message(b[..4], b[8..12], questions, answers, tail);
    TwoWord(b[4], b[5]);
    TwoWord(b[6], b[7]);
    assert b == b[..4] + [b[4], b[5]] + [b[6], b[7]] + b[8..12] + b[12..];
  }

  /** The walk returns texts exactly when the response is a well-formed header, questions and answers followed by
      anything, and then they are those of its TXT records of class IN, in order. */
  lemma WalkCorrect(b: bytes, texts: seq<bytes>)
    ensures Walk(b) == Some(texts) <==> exists m :: GoodMessage(m) && MessageBytes(m) == b && Texts(m.answers) == texts
  {
    hide GoodMessage, MessageBytes, Texts, Walk;
    if Walk(b) == Some(texts) {
      var m := MessageOf(b);
    }
    forall m | GoodMessage(m) && MessageBytes(m) == b ensures Walk(b) == Some(Texts(m.answers)) {
      WalksMessage(m);
    }
  }
}
