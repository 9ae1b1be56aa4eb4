/** A filter condition `[!]key[=value]` and its evaluation against the
    property list of one PulseAudio sink (snapclient_automatic/run.py,
    the body of the inner loop of handle_sink_added). */
module Conditions {
  import opened Results

  /** A sink's property list: property name to property value. */
  type Properties = map<string, string>

  /** The position of the first `c` in `s`, or `|s|` when there is none
      (Python's `s.find(c)`, with `|s|` for -1). */
  function Find(s: string, c: char): (i: nat)
    ensures i <= |s|
    ensures i < |s| ==> s[i] == c
  {
    if s == [] then 0
    else if s[0] == c then 0
    else Find(s[1..], c) + 1
  }

  /** No `c` comes before the position `Find` reports. */
  lemma {:induction false} FindIsFirst(s: string, c: char)
    ensures forall j :: 0 <= j < Find(s, c) ==> s[j] != c
  {
    if s != [] && s[0] != c {
      FindIsFirst(s[1..], c);
      assert forall j :: 0 < j <= Find(s[1..], c) ==> s[j] == s[1..][j - 1];
    }
  }

  /** Glues `parts` together with `sep` between neighbours (Python's `sep.join`). */
  function Join(parts: seq<string>, sep: char): string
    requires |parts| > 0
  {
    if |parts| == 1 then parts[0] else parts[0] + [sep] + Join(parts[1..], sep)
  }

  /** Python's `s.split(sep, maxsplit)`: cut `s` at the first `maxsplit`
      occurrences of `sep`, left to right. */
  function Split(s: string, sep: char, maxsplit: nat): (parts: seq<string>)
    ensures 1 <= |parts| <= maxsplit + 1
    decreases |s|
  {
    var i := Find(s, sep);
    if maxsplit == 0 || i == |s| then [s]
    else [s[..i]] + Split(s[i + 1..], sep, maxsplit - 1)
  }

  /** Joining a first part before the others puts one `sep` between them. */
  lemma JoinCons(head: string, rest: seq<string>, tail: string, sep: char)
    requires |rest| > 0 && Join(rest, sep) == tail
    ensures Join([head] + rest, sep) == head + [sep] + tail
  {
    assert ([head] + rest)[1..] == rest;
  }

  /** `Split` loses nothing: joining the parts with `sep` gives back the text. */
  lemma {:induction false} SplitJoin(s: string, sep: char, maxsplit: nat)
    ensures Join(Split(s, sep, maxsplit), sep) == s
    decreases |s|
  {
    var i := Find(s, sep);
    if maxsplit > 0 && i < |s| {
      var rest := Split(s[i + 1..], sep, maxsplit - 1);
      SplitJoin(s[i + 1..], sep, maxsplit - 1);
      JoinCons(s[..i], rest, s[i + 1..], sep);
      assert s == s[..i] + [sep] + s[i + 1..];
    }
  }

  /** `Split` cuts at every separator it may: no part but the last holds
      `sep`, and the last holds none either unless all `maxsplit` cuts were made. */
  lemma {:induction false} SplitPartsFree(s: string, sep: char, maxsplit: nat)
    ensures forall k :: 0 <= k < |Split(s, sep, maxsplit)| - 1 ==> sep !in Split(s, sep, maxsplit)[k]
    ensures |Split(s, sep, maxsplit)| <= maxsplit ==> sep !in Split(s, sep, maxsplit)[|Split(s, sep, maxsplit)| - 1]
    decreases |s|
  {
    var i := Find(s, sep);
    FindIsFirst(s, sep);
    if maxsplit > 0 && i < |s| {
      var rest := Split(s[i + 1..], sep, maxsplit - 1);
      SplitPartsFree(s[i + 1..], sep, maxsplit - 1);
      var parts := [s[..i]] + rest;
      assert parts == Split(s, sep, maxsplit);
      assert forall k :: 0 < k < |parts| ==> parts[k] == rest[k - 1];
    }
  }

  /** The test a condition text makes once any leading `!` is removed:
      `key=value` compares the property's value, anything else checks that
      the property named by the text before the first `=` is present. */
  function Test(properties: Properties, body: string): (r: Result<bool>)
    ensures r.Err? ==> r.error.KeyError? && r.error.key !in properties
  {
    var parts := Split(body, '=', 2);
    if |parts| == 2 then
      if parts[0] in properties then Ok(properties[parts[0]] == parts[1])
      else Err(KeyError(parts[0]))
    else
      Ok(parts[0] in properties)
  }

  /** The outcome of one condition on a sink's properties: `Ok(b)` for a
      condition that holds (`b`) or fails (`!b`), `Err(KeyError(k))` when a
      `key=value` condition looks up a property `k` the sink does not have. */
  function EvalCondition(properties: Properties, condition: string): (r: Result<bool>)
    ensures r.Err? ==> r.error.KeyError? && r.error.key !in properties
  {
    var negate := |condition| > 0 && condition[0] == '!';
    var body := if negate then condition[1..] else condition;
    var result :- Test(properties, body);
    Ok(if negate then !result else result)
  }

  /** The outcome with the truth value flipped; errors stay errors. */
  function Negated(r: Result<bool>): Result<bool> {
    match r
    case Ok(b) => Ok(!b)
    case Err(e) => Err(e)
  }

  /** True of a condition text that does not start with the negation mark. */
  predicate Unnegated(condition: string) {
    condition == [] || condition[0] != '!'
  }

  /** Splitting where `sep` does not occur yields the whole text. */
  lemma SplitWithoutSeparator(s: string, sep: char, maxsplit: nat)
    requires sep !in s
    ensures Split(s, sep, maxsplit) == [s]
  {
    assert Find(s, sep) == |s|;
  }

  /** The first `sep` in `key + [sep] + rest`, with no `sep` in `key`, sits right after `key`. */
  lemma FindAfterKey(key: string, sep: char, rest: string)
    requires sep !in key
    ensures Find(key + [sep] + rest, sep) == |key|
  {
    FindIsFirst(key + [sep] + rest, sep);
    var s := key + [sep] + rest;
    assert s[|key|] == sep;
    assert forall j :: 0 <= j < |key| ==> s[j] == key[j];
  }

  /** `Split` cuts at the first separator: the text before it is the first part. */
  lemma SplitAtFirst(key: string, sep: char, rest: string, maxsplit: nat)
    requires sep !in key && maxsplit > 0
    ensures Split(key + [sep] + rest, sep, maxsplit)
         == [key] + Split(rest, sep, maxsplit - 1)
  {
    var s := key + [sep] + rest;
    FindAfterKey(key, sep, rest);
    assert s[..|key|] == key;
    assert s[|key| + 1..] == rest;
  }

  /** Negation: a leading `!` flips the outcome of the test made by the rest
      of the text, and only that one `!` is consumed: `!!k` is the negated
      presence test of a property literally named `!k`. A text without a
      leading `!` makes its test unflipped. */
  lemma NegationFlips(properties: Properties, condition: string)
    ensures EvalCondition(properties, "!" + condition)
         == Negated(Test(properties, condition))
    ensures Unnegated(condition) ==> EvalCondition(properties, condition) == Test(properties, condition)
  {
    assert ("!" + condition)[1..] == condition;
  }

  /** Presence form: a condition without `=` holds exactly when the sink has a
      property of that name; the property's value plays no part. */
  lemma PresenceForm(properties: Properties, key: string)
    requires '=' !in key && Unnegated(key)
    ensures EvalCondition(properties, key) == Ok(key in properties)
  {
    SplitWithoutSeparator(key, '=', 2);
  }

  /** Equality form: `key=value` with a single `=` compares the property's
      value with `value` exactly, and raises KeyError when the sink lacks the
      property (it does not evaluate to false). */
  lemma EqualityForm(properties: Properties, key: string, value: string)
    requires '=' !in key && '=' !in value && Unnegated(key)
    ensures EvalCondition(properties, key + "=" + value)
         == if key in properties then Ok(properties[key] == value) else Err(KeyError(key))
  {
    var c := key + "=" + value;
    assert Unnegated(c) by {
      if key == [] { assert c[0] == '='; } else { assert c[0] == key[0]; }
    }
    SplitAtFirst(key, '=', value, 2);
    SplitWithoutSeparator(value, '=', 1);
    assert Split(c, '=', 2) == [key, value];
  }

  /** Two or more `=`: `split("=", 2)` gives three parts, so the condition is
      a presence test of the text before the first `=`. */
  lemma SeveralEqualsIsPresence(properties: Properties, key: string, middle: string, rest: string)
    requires '=' !in key && '=' !in middle && Unnegated(key)
    ensures EvalCondition(properties, key + "=" + middle + "=" + rest)
         == Ok(key in properties)
  {
    var c := key + "=" + middle + "=" + rest;
    assert Unnegated(c) by {
      if key == [] { assert c[0] == '='; } else { assert c[0] == key[0]; }
    }
    assert c == key + ['='] + (middle + ['='] + rest);
    SplitAtFirst(key, '=', middle + ['='] + rest, 2);
    SplitAtFirst(middle, '=', rest, 1);
    assert |Split(c, '=', 2)| == 3;
  }
}
