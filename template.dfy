/** Message template expansion (`_generate_message`): plain substring
    replacement, in a fixed order — the timestamp, the random string, the
    random number, then one placeholder per label in the label set's order.
    The clock reading and the two random draws are parameters. */
module Template {
  import opened Text

  const TimestampToken: string := "{timestamp}"
  const RandomStringToken: string := "{random_string}"
  const RandomNumberToken: string := "{random_number}"

  /** The placeholder `{key}` for a label. */
  function LabelToken(key: string): (t: string)
    ensures |t| == |key| + 2 && t[0] == '{' && t[|t| - 1] == '}'
  {
    "{" + key + "}"
  }

  predicate NoBraces(s: string) {
    forall k :: 0 <= k < |s| ==> s[k] != '{' && s[k] != '}'
  }

  predicate IsAsciiLetter(c: char) {
    'a' <= c <= 'z' || 'A' <= c <= 'Z'
  }

  /** What eight draws from the ASCII letters can give. */
  predicate IsRandomString(s: string) {
    |s| == 8 && forall k :: 0 <= k < |s| ==> IsAsciiLetter(s[k])
  }

  /** What a uniform draw from 1 to 1000 can give. */
  predicate IsRandomNumber(n: int) {
    1 <= n <= 1000
  }

  /** The label loop: each label's placeholder is replaced by its value, the
      labels taken in order, each replacement working on the previous one's
      result. */
  function SubstituteLabels(message: string, labels: seq<(string, string)>): string
    decreases |labels|
  {
    if labels == [] then message
    else
      var (key, value) := labels[|labels| - 1];
      Replace(SubstituteLabels(message, labels[..|labels| - 1]), LabelToken(key), value)
  }

  /** The message a template expands to, given the clock text, the random
      string and the random number of this call. */
  function Expand(template: string, timestamp: string, randomString: string,
                  randomNumber: nat, labels: seq<(string, string)>): string
  {
    var withTime := Replace(template, TimestampToken, timestamp);
    var withString := Replace(withTime, RandomStringToken, randomString);
    var withNumber := Replace(withString, RandomNumberToken, Decimal(randomNumber));
    SubstituteLabels(withNumber, labels)
  }

  /** `_generate_message`: the template rebound by each replacement in turn. */
  method GenerateMessage(template: string, timestamp: string, randomString: string,
                         randomNumber: int, labels: seq<(string, string)>) returns (message: string)
    requires IsRandomString(randomString) && IsRandomNumber(randomNumber)
    ensures message == Expand(template, timestamp, randomString, randomNumber, labels)
  {
    message := template;
    message := Replace(message, TimestampToken, timestamp);
    message := Replace(message, RandomStringToken, randomString);
    message := Replace(message, RandomNumberToken, Decimal(randomNumber));
    ghost var beforeLabels := message;
    for i := 0 to |labels|
      invariant message == SubstituteLabels(beforeLabels, labels[..i])
    {
      var (key, value) := labels[i];
      assert labels[..i + 1][..i] == labels[..i];
      message := Replace(message, LabelToken(key), value);
    }
    assert labels[..|labels|] == labels;
  }

  // ---- properties of the expansion ----

  /** A message without braces holds no label placeholder. */
  lemma {:induction false} SubstituteLabelsNoBraces(message: string, labels: seq<(string, string)>)
    requires NoBraces(message)
    ensures SubstituteLabels(message, labels) == message
    decreases |labels|
  {
    if labels != [] {
      SubstituteLabelsNoBraces(message, labels[..|labels| - 1]);
      var key := labels[|labels| - 1].0;
      AbsentWithoutHead(message, LabelToken(key));
      ReplaceAbsent(message, LabelToken(key), labels[|labels| - 1].1);
    }
  }

  /** Labels none of whose placeholders occur leave the message as it is. */
  lemma {:induction false} SubstituteLabelsAbsent(message: string, labels: seq<(string, string)>)
    requires forall i :: 0 <= i < |labels| ==> !Contains(message, LabelToken(labels[i].0))
    ensures SubstituteLabels(message, labels) == message
    decreases |labels|
  {
    if labels != [] {
      var n := |labels| - 1;
      SubstituteLabelsAbsent(message, labels[..n]);
      ReplaceAbsent(message, LabelToken(labels[n].0), labels[n].1);
    }
  }

  /** A template holding none of the known placeholders comes back unchanged;
      in particular an unknown placeholder stays as written. */
  lemma ExpandUnchanged(template: string, timestamp: string, randomString: string,
                        randomNumber: nat, labels: seq<(string, string)>)
    requires !Contains(template, TimestampToken)
    requires !Contains(template, RandomStringToken)
    requires !Contains(template, RandomNumberToken)
    requires forall i :: 0 <= i < |labels| ==> !Contains(template, LabelToken(labels[i].0))
    ensures Expand(template, timestamp, randomString, randomNumber, labels) == template
  {
    ReplaceAbsent(template, TimestampToken, timestamp);
    ReplaceAbsent(template, RandomStringToken, randomString);
    ReplaceAbsent(template, RandomNumberToken, Decimal(randomNumber));
    SubstituteLabelsAbsent(template, labels);
  }

  /** A template without the three built-in placeholders is expanded by the
      label loop alone. */
  lemma ExpandLabelsOnly(template: string, timestamp: string, randomString: string,
                         randomNumber: nat, labels: seq<(string, string)>)
    requires !Contains(template, TimestampToken)
    requires !Contains(template, RandomStringToken)
    requires !Contains(template, RandomNumberToken)
    ensures Expand(template, timestamp, randomString, randomNumber, labels)
         == SubstituteLabels(template, labels)
  {
    ReplaceAbsent(template, TimestampToken, timestamp);
    ReplaceAbsent(template, RandomStringToken, randomString);
    ReplaceAbsent(template, RandomNumberToken, Decimal(randomNumber));
  }

  /** A placeholder `{w}` never occurs inside a different placeholder `{key}`
      when neither name holds a brace. */
  lemma BracedNotInside(key: string, w: string)
    requires NoBraces(key) && NoBraces(w) && key != w
    ensures !Contains(LabelToken(key), LabelToken(w))
  {
    var k, t := LabelToken(key), LabelToken(w);
    forall i | 0 <= i <= |k| - |t| ensures !OccursAt(k, t, i) {
      if 0 < i {
        assert k[i..i + |t|][0] == key[i - 1] != t[0];
      } else if |t| < |k| {
        assert k[..|t|][|t| - 1] == key[|t| - 2] != t[|t| - 1];
      } else {
        assert k[1..|k| - 1] == key && t[1..|t| - 1] == w;
        assert k[..|t|] == k != t;
      }
    }
  }

  /** The three built-in placeholders are themselves braced names. */
  lemma BuiltinTokens()
    ensures TimestampToken == LabelToken("timestamp")
    ensures RandomStringToken == LabelToken("random_string")
    ensures RandomNumberToken == LabelToken("random_number")
  {
  }

  /** Their names hold no brace. */
  lemma BuiltinNames()
    ensures NoBraces("timestamp") && NoBraces("random_string") && NoBraces("random_number")
  {
  }

  /** No built-in placeholder occurs inside another. */
  lemma BuiltinsApart()
    ensures !Contains(RandomStringToken, TimestampToken)
    ensures !Contains(RandomNumberToken, TimestampToken)
    ensures !Contains(RandomNumberToken, RandomStringToken)
  {
    BuiltinTokens();
    BuiltinNames();
    BracedNotInside("random_string", "timestamp");
    BracedNotInside("random_number", "timestamp");
    BracedNotInside("random_number", "random_string");
  }

  /** The decimal form of a number holds no brace. */
  lemma DecimalNoBraces(n: nat)
    ensures NoBraces(Decimal(n))
  {
    var d := Decimal(n);
    forall k | 0 <= k < |d| ensures d[k] != '{' && d[k] != '}' {
      assert IsDigit(d[k]);
    }
  }

  /** A label value is inserted verbatim: whatever it holds, including a
      built-in placeholder such as `{timestamp}`, is not expanded, because
      the built-in placeholders are replaced before the labels. */
  lemma LabelValueVerbatim(key: string, value: string, timestamp: string,
                           randomString: string, randomNumber: nat)
    requires NoBraces(key)
    requires key != "timestamp" && key != "random_string" && key != "random_number"
    ensures Expand(LabelToken(key), timestamp, randomString, randomNumber, [(key, value)]) == value
  {
    var t := LabelToken(key);
    BuiltinTokens();
    BuiltinNames();
    BracedNotInside(key, "timestamp");
    BracedNotInside(key, "random_string");
    BracedNotInside(key, "random_number");
    ExpandLabelsOnly(t, timestamp, randomString, randomNumber, [(key, value)]);
    ReplaceWhole(t, value);
  }

  /** The clock text is inserted as given. */
  lemma TimestampInserted(timestamp: string, randomString: string, randomNumber: int,
                          labels: seq<(string, string)>)
    requires NoBraces(timestamp) && IsRandomString(randomString) && IsRandomNumber(randomNumber)
    ensures Expand(TimestampToken, timestamp, randomString, randomNumber, labels) == timestamp
  {
    ReplaceWhole(TimestampToken, timestamp);
    AbsentWithoutHead(timestamp, RandomStringToken);
    ReplaceAbsent(timestamp, RandomStringToken, randomString);
    AbsentWithoutHead(timestamp, RandomNumberToken);
    ReplaceAbsent(timestamp, RandomNumberToken, Decimal(randomNumber));
    SubstituteLabelsNoBraces(timestamp, labels);
  }

  /** The random string is inserted as given: eight ASCII letters. */
  lemma RandomStringInserted(timestamp: string, randomString: string, randomNumber: int,
                             labels: seq<(string, string)>)
    requires IsRandomString(randomString) && IsRandomNumber(randomNumber)
    ensures var text := Expand(RandomStringToken, timestamp, randomString, randomNumber, labels);
      text == randomString && |text| == 8 && forall k :: 0 <= k < 8 ==> IsAsciiLetter(text[k])
  {
    BuiltinsApart();
    ReplaceAbsent(RandomStringToken, TimestampToken, timestamp);
    ReplaceWhole(RandomStringToken, randomString);
    AbsentWithoutHead(randomString, RandomNumberToken);
    ReplaceAbsent(randomString, RandomNumberToken, Decimal(randomNumber));
    SubstituteLabelsNoBraces(randomString, labels);
  }

  /** The random number is inserted as its decimal text, which reads back as
      a number from 1 to 1000 and takes one to four digits. */
  lemma RandomNumberInserted(timestamp: string, randomString: string, randomNumber: int,
                             labels: seq<(string, string)>)
    requires IsRandomString(randomString) && IsRandomNumber(randomNumber)
    ensures var text := Expand(RandomNumberToken, timestamp, randomString, randomNumber, labels);
      && text == Decimal(randomNumber)
      && 1 <= |text| <= 4
      && (forall k :: 0 <= k < |text| ==> IsDigit(text[k]))
      && 1 <= DecimalValue(text) <= 1000
  {
    var n := Decimal(randomNumber);
    BuiltinsApart();
    ReplaceAbsent(RandomNumberToken, TimestampToken, timestamp);
    ReplaceAbsent(RandomNumberToken, RandomStringToken, randomString);
    ReplaceWhole(RandomNumberToken, n);
    DecimalNoBraces(randomNumber);
    SubstituteLabelsNoBraces(n, labels);
    DecimalRoundTrip(randomNumber);
    DecimalLength(randomNumber);
  }

  /** `"hello {name}"` with the label name = x expands to `"hello x"`,
      whatever the clock and the random draws. */
  lemma HelloExample(timestamp: string, randomString: string, randomNumber: nat)
    ensures Expand("hello {name}", timestamp, randomString, randomNumber, [("name", "x")]) == "hello x"
  {
    var t := "hello {name}";
    assert t[0..11][0] == 'h' && t[1..12][0] == 'e' && TimestampToken[0] == '{';
    ShortAbsent(t, RandomStringToken);
    ShortAbsent(t, RandomNumberToken);
    ExpandLabelsOnly(t, timestamp, randomString, randomNumber, [("name", "x")]);
    HelloLabels();
  }

  lemma HelloLabels()
    ensures SubstituteLabels("hello {name}", [("name", "x")]) == "hello x"
  {
    var labels := [("name", "x")];
    assert labels[..0] == [];
    var pre, name := "hello ", LabelToken("name");
    assert pre + name == "hello {name}";
    assert SubstituteLabels(pre + name, labels) == Replace(pre + name, name, "x");
    ReplaceAfterClean(pre, name, "x");
  }

  /** The label order decides the result: a value that holds another label's
      placeholder is expanded only if that label comes later. */
  lemma LabelOrderMatters(timestamp: string, randomString: string, randomNumber: nat)
    ensures Expand("{a}", timestamp, randomString, randomNumber, [("a", "{b}"), ("b", "x")]) == "x"
    ensures Expand("{a}", timestamp, randomString, randomNumber, [("b", "x"), ("a", "{b}")]) == "{b}"
  {
    var t := "{a}";
    ShortAbsent(t, TimestampToken);
    ShortAbsent(t, RandomStringToken);
    ShortAbsent(t, RandomNumberToken);
    ExpandLabelsOnly(t, timestamp, randomString, randomNumber, [("a", "{b}"), ("b", "x")]);
    ExpandLabelsOnly(t, timestamp, randomString, randomNumber, [("b", "x"), ("a", "{b}")]);
    ValueExpandedLater();
    ValueNotExpandedEarlier();
  }

  lemma ValueExpandedLater()
    ensures SubstituteLabels("{a}", [("a", "{b}"), ("b", "x")]) == "x"
  {
    var first: seq<(string, string)> := [("a", "{b}"), ("b", "x")];
    assert first[..1] == [("a", "{b}")] && first[..1][..0] == [];
    assert Replace("{a}", "{a}", "{b}") == "{b}";
    assert Replace("{b}", "{b}", "x") == "x";
    assert SubstituteLabels("{a}", first[..1]) == "{b}";
  }

  lemma ValueNotExpandedEarlier()
    ensures SubstituteLabels("{a}", [("b", "x"), ("a", "{b}")]) == "{b}"
  {
    var second: seq<(string, string)> := [("b", "x"), ("a", "{b}")];
    assert second[..1] == [("b", "x")] && second[..1][..0] == [];
    BracedNotInside("a", "b");
    assert LabelToken("a") == "{a}" && LabelToken("b") == "{b}";
    ReplaceAbsent("{a}", "{b}", "x");
    assert SubstituteLabels("{a}", second[..1]) == "{a}";
    assert Replace("{a}", "{a}", "{b}") == "{b}";
  }

  /** A known placeholder can survive expansion: with the label a = "", the
      template `{a{a}}` becomes `{a}`, because the replacement joins the text
      around the removed placeholder. */
  lemma PlaceholderCanSurvive(timestamp: string, randomString: string, randomNumber: nat)
    ensures var r := Expand("{a{a}}", timestamp, randomString, randomNumber, [("a", "")]);
      r == "{a}" && Contains(r, LabelToken("a"))
  {
    var t := "{a{a}}";
    ShortAbsent(t, TimestampToken);
    ShortAbsent(t, RandomStringToken);
    ShortAbsent(t, RandomNumberToken);
    ExpandLabelsOnly(t, timestamp, randomString, randomNumber, [("a", "")]);
    var a := LabelToken("a");
    assert OccursAt(t, a, 2);
    assert !OccursAt(t, a, 0) && !OccursAt(t, a, 1);
    ReplaceAtFirst(t, a, "", 2);
    assert Replace("}", a, "") == "}";
    assert OccursAt("{a}", a, 0);
  }
}
