/** The loops of the DNS walk. */
module DnsIO {
  import opened Core
  import opened Endian
  import opened Dns

  lemma Tail(m: bytes, i: nat, k: nat)
    requires i + k <= |m|
    ensures m[i..][k..] == m[i + k..]
  {
  }

  /** One round of the skipping, by offsets into the message. */
  lemma NameRound(m: bytes, offset: nat)
    requires offset <= |m|
    ensures SkipName(m[offset..]) ==
            if offset == |m| then None
            else if m[offset] == 0 then Some(m[offset + 1..])
            else if m[offset] >= 0xc0 then if offset + 1 == |m| then None else Some(m[offset + 2..])
            else if m[offset] >= 0x40 || offset + 1 + m[offset] as int > |m| then None
            else SkipName(m[offset + 1 + m[offset] as int..])
  {
    var s := m[offset..];
    if s != [] {
      var k := 1 + s[0] as int;
      assert s[1..] == m[offset + 1..];
      if 2 <= |s| {
        assert s[2..] == m[offset + 2..];
      }
      if k <= |s| {
        assert s[k..] == m[offset + k..];
      }
    }
  }

  lemma Cut(m: bytes, offset: nat, end: nat, i: nat, j: nat)
    requires offset <= end <= |m| && i <= j <= end - offset
    ensures m[offset..end][i..j] == m[offset + i..offset + j]
  {
    assert forall k | 0 <= k < j - i :: m[offset..end][i..j][k] == m[offset + i..offset + j][k];
  }

  method SkipNameAt(m: bytes, start: nat) returns (end: Option<nat>)
    requires start <= |m|
    ensures end.Some? ==> end.value <= |m| && SkipName(m[start..]) == Some(m[end.value..])
    ensures end.None? ==> SkipName(m[start..]) == None
  {
    hide SkipName;
    var offset := start;
    while true
      invariant offset <= |m| && SkipName(m[offset..]) == SkipName(m[start..])
      decreases |m| - offset
    {
      NameRound(m, offset);
      if offset >= |m| {
        return None;
      }
      var size: nat := m[offset];
      offset := offset + 1;
      if size == 0 {
        return Some(offset);
      }
      if size >= 0xc0 {
        if offset >= |m| {
          return None;
        }
        return Some(offset + 1);
      }
      if size >= 0x40 || offset + size > |m| {
        return None;
      }
      offset := offset + size;
    }
  }

  lemma QuestionRound(m: bytes, offset: nat, next: nat, n: nat)
    requires offset <= |m| && next <= |m| && SkipName(m[offset..]) == Some(m[next..])
    ensures n > 0 ==>
              SkipQuestions(n, m[offset..]) ==
              if next + 4 > |m| then None else SkipQuestions(n - 1, m[next + 4..])
  {
    hide SkipName;
    if next + 4 <= |m| {
      Tail(m, next, 4);
    }
  }

  lemma NoQuestion(s: bytes, n: nat)
    requires n > 0 && SkipName(s) == None
    ensures SkipQuestions(n, s) == None
  {
  }

  lemma DoneQuestions(s: bytes)
    ensures SkipQuestions(0, s) == Some(s)
  {
  }

  method SkipQuestionsAt(m: bytes, start: nat, questions: nat) returns (end: Option<nat>)
    requires start <= |m|
    ensures end.Some? ==> end.value <= |m| && SkipQuestions(questions, m[start..]) == Some(m[end.value..])
    ensures end.None? ==> SkipQuestions(questions, m[start..]) == None
  {
    hide SkipName, SkipQuestions;
    var offset: nat, i: nat := start, 0;
    while i < questions
      invariant i <= questions && offset <= |m|
      invariant SkipQuestions(questions - i, m[offset..]) == SkipQuestions(questions, m[start..])
    {
      var next := SkipNameAt(m, offset);
      if next.None? {
        NoQuestion(m[offset..], questions - i);
        return None;
      }
      QuestionRound(m, offset, next.value, questions - i);
      if next.value + 4 > |m| {
        return None;
      }
      offset := next.value + 4;
      i := i + 1;
    }
    DoneQuestions(m[offset..]);
    return Some(offset);
  }

  lemma StartEmpty<T>(r: Option<seq<T>>)
    ensures r.Some? ==> [] + r.value == r.value
  {
  }

  lemma StringRound(m: bytes, offset: nat, end: nat)
    requires offset < end <= |m|
    ensures var next := offset + 1 + m[offset] as int;
            Strings(m[offset..end]) ==
            if next > end then None
            else if Strings(m[next..end]).None? then None
            else Some(m[offset + 1..next] + Strings(m[next..end]).value)
  {
    var data := m[offset..end];
    var k := 1 + data[0] as int;
    if k <= |data| {
      Cut(m, offset, end, 1, k);
      Cut(m, offset, end, k, |data|);
      assert data[k..] == data[k..|data|];
    }
  }

  lemma NoStringsLeft(data: bytes)
    requires data == []
    ensures Strings(data) == Some([])
  {
  }

  /** The strings between `start` and `end`. */
  method ReadTxt(m: bytes, start: nat, end: nat) returns (value: Option<bytes>)
    requires start <= end <= |m|
    ensures value == Strings(m[start..end])
  {
    hide Strings;
    var offset: nat, text: bytes := start, [];
    StartEmpty(Strings(m[start..end]));
    while offset < end
      invariant start <= offset <= end
      invariant Strings(m[start..end]) ==
                (if Strings(m[offset..end]).Some? then Some(text + Strings(m[offset..end]).value) else None)
    {
      StringRound(m, offset, end);
      var part: nat := m[offset];
      offset := offset + 1;
      if offset + part > end {
        return None;
      }
      ghost var rest := Strings(m[offset + part..end]);
      if rest.Some? {
        AppendAssociative(text, m[offset..offset + part], rest.value);
      }
      text := text + m[offset..offset + part];
      offset := offset + part;
    }
    NoStringsLeft(m[end..end]);
    assert text + [] == text;
    return Some(text);
  }

  lemma AnswerAfter(s: bytes, t: bytes)
    requires SkipName(s) == Some(t)
    ensures |t| < 10 ==> ReadAnswer(s) == None
    ensures |t| >= 10 ==>
              var end := 10 + Word(t[8], t[9]);
              ReadAnswer(s) ==
              if end > |t| then None
              else if Word(t[0], t[1]) == TXT && Word(t[2], t[3]) == IN then
                if Strings(t[10..end]).None? then None else Some(([Strings(t[10..end]).value], t[end..]))
              else Some(([], t[end..]))
  {
    hide SkipName, Strings, Word;
  }

  /** What follows the name of an answer, by offsets into the message. */
  lemma AnswerRound(m: bytes, start: nat, offset: nat)
    requires start <= |m| && offset <= |m| && SkipName(m[start..]) == Some(m[offset..])
    ensures offset + 10 > |m| ==> ReadAnswer(m[start..]) == None
    ensures offset + 10 <= |m| ==>
              var data := offset + 10;
              var end := data + Word(m[offset + 8], m[offset + 9]);
              ReadAnswer(m[start..]) ==
              if end > |m| then None
              else if Word(m[offset], m[offset + 1]) == TXT && Word(m[offset + 2], m[offset + 3]) == IN then
                if Strings(m[data..end]).None? then None else Some(([Strings(m[data..end]).value], m[end..]))
              else Some(([], m[end..]))
  {
    hide SkipName, Strings, Word, ReadAnswer;
    var t := m[offset..];
    AnswerAfter(m[start..], t);
    if offset + 10 <= |m| {
      assert t[0] == m[offset] && t[1] == m[offset + 1] && t[2] == m[offset + 2] && t[3] == m[offset + 3];
      assert t[8] == m[offset + 8] && t[9] == m[offset + 9];
      var length := Word(t[8], t[9]);
      if offset + 10 + length <= |m| {
        assert m[offset..] == m[offset..|m|];
        Cut(m, offset, |m|, 10, 10 + length);
        Tail(m, offset, 10 + length);
      }
    }
  }

  lemma NoAnswer(s: bytes)
    requires SkipName(s) == None
    ensures ReadAnswer(s) == None
  {
  }

  /** One answer: no value for a record of another type or class. */
  method ReadAnswerAt(m: bytes, start: nat) returns (r: Option<(seq<bytes>, nat)>)
    requires start <= |m|
    ensures r.None? ==> ReadAnswer(m[start..]) == None
    ensures r.Some? ==> r.value.1 <= |m| && ReadAnswer(m[start..]) == Some((r.value.0, m[r.value.1..]))
  {
    hide ReadAnswer, Strings, Word, SkipName;
    var next := SkipNameAt(m, start);
    if next.None? {
      NoAnswer(m[start..]);
      return None;
    }
    AnswerRound(m, start, next.value);
    var offset := next.value;
    if offset + 10 > |m| {
      return None;
    }
    var kind, class_ := Word(m[offset], m[offset + 1]), Word(m[offset + 2], m[offset + 3]);
    var length := Word(m[offset + 8], m[offset + 9]);
    offset := offset + 10;
    var end := offset + length;
    if end > |m| {
      return None;
    }
    if kind == TXT && class_ == IN {
      var value := ReadTxt(m, offset, end);
      if value.None? {
        return None;
      }
      return Some(([value.value], end));
    }
    return Some(([], end));
  }

  /** Collects the TXT records of a response of exactly `|m|` bytes; every index stays inside it. */
  method CollectTxtRecords(m: bytes) returns (r: Option<seq<bytes>>)
    ensures r == Walk(m)
  {
    hide ReadAnswer, SkipQuestions, Word;
    if |m| < 12 {
      return None;
    }
    var questions, answers := Word(m[4], m[5]), Word(m[6], m[7]);
    var start := SkipQuestionsAt(m, 12, questions);
    if start.None? {
      return None;
    }
    var result: seq<bytes> := [];
    var offset: nat, i: nat := start.value, 0;
    ghost var all := ReadAnswers(answers, m[offset..]);
    StartEmpty(all);
    while i < answers
      invariant i <= answers && offset <= |m|
      invariant all == (if ReadAnswers(answers - i, m[offset..]).Some?
                        then Some(result + ReadAnswers(answers - i, m[offset..]).value) else None)
    {
      var answer := ReadAnswerAt(m, offset);
      if answer.None? {
        return None;
      }
      var (value, next) := answer.value;
      if ReadAnswers(answers - i - 1, m[next..]).Some? {
        AppendAssociative(result, value, ReadAnswers(answers - i - 1, m[next..]).value);
      }
      result := result + value;
      offset := next;
      i := i + 1;
    }
    assert result + [] == result;
    return Some(result);
  }
}
