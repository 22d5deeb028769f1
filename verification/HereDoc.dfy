/** Texts passed to a shell in quoted here-documents: `tag` and `script` in host.rs, the tag search in queue.rs. */
module HereDoc {
  import opened Wrappers
  import opened Text

  function Digit(d: nat): (c: char)
    requires d < 10
  {
    "0123456789"[d]
  }

  function Decimal(n: nat): (s: string) {
    if n < 10 then [Digit(n)] else Decimal(n / 10) + [Digit(n % 10)]
  }

  function Marker(n: nat): (t: string) {
    "AGENTTERM_" + Decimal(n)
  }

  predicate Avoids(texts: seq<string>, t: string) {
    forall i :: 0 <= i < |texts| ==> !Contains(texts[i], t)
  }

  /** What decimal digits stand for. */
  function Value(digits: string): (n: nat) {
    if digits == "" then 0
    else
      var last := digits[|digits| - 1];
      10 * Value(digits[..|digits| - 1]) + if '0' <= last <= '9' then last as int - '0' as int else 0
  }

  /** A marker is the word and its number in digits, without a zero in front. */
  lemma {:induction false} MarkersAreNumbered(n: nat)
    ensures |Marker(n)| > 10 && Marker(n)[..10] == "AGENTTERM_" && Marker(n)[10..] == Decimal(n)
    ensures Value(Decimal(n)) == n && forall c :: c in Decimal(n) ==> '0' <= c <= '9'
    ensures Decimal(n) != "" && (n > 0 ==> Decimal(n)[0] != '0')
  {
    DigitsAre(n % 10);
    if n >= 10 {
      MarkersAreNumbered(n / 10);
      var s := Decimal(n);
      assert s[..|s| - 1] == Decimal(n / 10);
    } else {
      assert Decimal(n)[..0] == "";
    }
  }

  lemma DigitsAre(d: nat)
    requires d < 10
    ensures Digit(d) as int == '0' as int + d
  {
  }

  // ---------- the search ends ----------

  function Pow10(k: nat): (p: nat)
    ensures p >= 1
  {
    if k == 0 then 1 else 10 * Pow10(k - 1)
  }

  lemma {:induction false} LongNumbers(n: nat)
    ensures n < Pow10(|Decimal(n)|)
  {
    if n >= 10 {
      LongNumbers(n / 10);
    } else {
      assert Pow10(1) == 10 * Pow10(0);
    }
  }

  lemma {:induction false} Pow10Grows(j: nat, k: nat)
    requires j <= k
    ensures Pow10(j) <= Pow10(k)
  {
    if j < k {
      Pow10Grows(j, k - 1);
    }
  }

  function Longest(texts: seq<string>, k: nat): (n: nat)
    requires k <= |texts|
    ensures forall i :: 0 <= i < k ==> |texts[i]| <= n
  {
    if k == 0 then 0
    else
      var n := Longest(texts, k - 1);
      if |texts[k - 1]| > n then |texts[k - 1]| else n
  }

  /** A marker as long as the number is large cannot stand in every text. */
  lemma LargeMarkersAvoid(texts: seq<string>, n: nat)
    requires !Avoids(texts, Marker(n))
    ensures n < Pow10(Longest(texts, |texts|))
  {
    var i :| 0 <= i < |texts| && Contains(texts[i], Marker(n));
    LongNumbers(n);
    Pow10Grows(|Decimal(n)|, Longest(texts, |texts|));
  }

  /** The first marker that stands in none of the texts. */
  method Tag(texts: seq<string>) returns (t: string)
    ensures Avoids(texts, t)
    ensures exists n: nat :: t == Marker(n) && forall m: nat :: m < n ==> !Avoids(texts, Marker(m))
  {
    var n: nat := 0;
    while !Avoids(texts, Marker(n))
      invariant forall m: nat :: m < n ==> !Avoids(texts, Marker(m))
      decreases Pow10(Longest(texts, |texts|)) - n
    {
      LargeMarkersAvoid(texts, n);
      n := n + 1;
    }
    t := Marker(n);
  }

  // ---------- what the shell reads back ----------

  /** What a here-document read from the input holds, and what follows it. */
  datatype Reading = Reading(body: string, rest: string)

  /**
   * A quoted here-document (section 2.7.4 of the POSIX Shell Command Language): whole lines, literally, up to a line
   * that is the delimiter and nothing else. Nothing is read when no such line comes.
   */
  function Read(input: string, t: string): (reading: Option<Reading>)
    decreases |input|
  {
    var line := Until(input, '\n');
    match After(input, '\n')
    case None => None
    case Some(rest) =>
      if line == t then Some(Reading("", rest))
      else match Read(rest, t)
        case None => None
        case Some(r) => Some(Reading(line + "\n" + r.body, r.rest))
  }

  /** The text as `format!` writes it: the text, a newline, the marker on its own line. */
  function Written(text: string, t: string, rest: string): (input: string) {
    text + ['\n'] + (t + ['\n'] + rest)
  }

  /** One of the text's lines, cut at newlines, is the marker. */
  predicate HasMarkerLine(text: string, t: string)
    decreases |text|
  {
    || Until(text, '\n') == t
    || (After(text, '\n').Some? && HasMarkerLine(After(text, '\n').value, t))
  }

  lemma UntilSplits(text: string)
    requires After(text, '\n').Some?
    ensures text == Until(text, '\n') + ['\n'] + After(text, '\n').value
  {
    StopsAtNewline(text);
  }

  lemma {:induction false} StopsAtNewline(text: string)
    requires |Until(text, '\n')| < |text|
    ensures text[|Until(text, '\n')|] == '\n'
  {
    if text[0] != '\n' {
      StopsAtNewline(text[1..]);
    }
  }

  lemma {:induction false} UntilOfAll(text: string)
    requires After(text, '\n').None?
    ensures Until(text, '\n') == text
  {
  }

  lemma {:induction false} ReadsUntilMarker(text: string, t: string, rest: string)
    requires '\n' !in t
    ensures Read(Written(text, t, rest), t).Some?
    ensures HasMarkerLine(text, t) ==> |Read(Written(text, t, rest), t).value.body| < |text| + 1
    ensures !HasMarkerLine(text, t) ==> Read(Written(text, t, rest), t) == Some(Reading(text + "\n", rest))
    decreases |text|
  {
    var line, input := Until(text, '\n'), Written(text, t, rest);
    if After(text, '\n').None? {
      UntilOfAll(text);
      UntilOfConcat(text, '\n', t + ['\n'] + rest);
      UntilOfConcat(t, '\n', rest);
      assert Read(t + ['\n'] + rest, t) == Some(Reading("", rest));
      assert text + "\n" + "" == text + "\n";
    } else {
      var more := After(text, '\n').value;
      UntilSplits(text);
      assert input == line + ['\n'] + Written(more, t, rest);
      UntilOfConcat(line, '\n', Written(more, t, rest));
      ReadsUntilMarker(more, t, rest);
      assert line + "\n" + (more + "\n") == text + "\n";
    }
  }

  /** Reading back gives exactly the text and one newline, precisely when no line of the text is the marker. */
  lemma ReadsBackIffNoMarkerLine(text: string, t: string, rest: string)
    requires '\n' !in t
    ensures Read(Written(text, t, rest), t) == Some(Reading(text + "\n", rest)) <==> !HasMarkerLine(text, t)
  {
    ReadsUntilMarker(text, t, rest);
  }

  lemma {:induction false} MarkerLineIsContained(text: string, t: string)
    requires HasMarkerLine(text, t)
    ensures Contains(text, t)
    decreases |text|
  {
    hide Contains;
    var line := Until(text, '\n');
    if line == t {
      StartIsContained(text, t);
    } else {
      var more := After(text, '\n').value;
      MarkerLineIsContained(more, t);
      UntilSplits(text);
      ContainedBehind(line + ['\n'], more, t);
    }
  }

  lemma StartIsContained(text: string, t: string)
    requires t <= text
    ensures Contains(text, t)
  {
    assert OccursAt(text, t, 0);
  }

  lemma ContainedBehind(front: string, more: string, t: string)
    ensures Contains(more, t) ==> Contains(front + more, t)
  {
    if k :| 0 <= k <= |more| && OccursAt(more, t, k) {
      assert (front + more)[|front| + k..|front| + k + |t|] == more[k..k + |t|];
      assert OccursAt(front + more, t, |front| + k);
    }
  }

  lemma {:induction false} DecimalIsDigits(n: nat)
    ensures '\n' !in Decimal(n)
  {
    if n >= 10 {
      DecimalIsDigits(n / 10);
    }
    assert Digit(n % 10) != '\n';
  }

  /** A marker found by the search hides nothing and ends nothing early: every text reads back whole. */
  lemma TaggedTextsReadBack(texts: seq<string>, n: nat, i: nat, rest: string)
    requires Avoids(texts, Marker(n)) && i < |texts|
    ensures Read(Written(texts[i], Marker(n), rest), Marker(n)) == Some(Reading(texts[i] + "\n", rest))
  {
    DecimalIsDigits(n);
    if HasMarkerLine(texts[i], Marker(n)) {
      MarkerLineIsContained(texts[i], Marker(n));
    }
    ReadsBackIffNoMarkerLine(texts[i], Marker(n), rest);
  }

  /** The two documents of a script, one after the other with a command line between, both read back whole. */
  lemma BothDocumentsReadBack(settings: string, prompt: string, n: nat, command: string, rest: string)
    requires Avoids([settings, prompt], Marker(n)) && '\n' !in command
    ensures var t := Marker(n);
            var input := Written(settings, t, command + ['\n'] + Written(prompt, t, rest));
            && Read(input, t) == Some(Reading(settings + "\n", command + ['\n'] + Written(prompt, t, rest)))
            && After(command + ['\n'] + Written(prompt, t, rest), '\n') == Some(Written(prompt, t, rest))
            && Read(Written(prompt, t, rest), t) == Some(Reading(prompt + "\n", rest))
  {
    TaggedTextsReadBack([settings, prompt], n, 0, command + ['\n'] + Written(prompt, Marker(n), rest));
    TaggedTextsReadBack([settings, prompt], n, 1, rest);
    UntilOfConcat(command, '\n', Written(prompt, Marker(n), rest));
  }
}
