/** The password generator: one character of each class, fill, and a Fisher-Yates shuffle in place. */
module PasswordGenerator {

  datatype Generated = Password(text: string) | Rejected(reason: string)

  const CLASSES: seq<string> := [
    "ABCDEFGHIJKLMNOPQRSTUVWXYZ", "abcdefghijklmnopqrstuvwxyz", "0123456789", "!@#$%^&*()-_=+[]{}:,.?"]

  // ------------------------------------------------------------- the shuffle

  function Swap<T>(s: seq<T>, i: nat, j: nat): seq<T>
    requires i < |s| && j < |s|
  {
    s[i := s[j]][j := s[i]]
  }

  /** One draw for each position i, i - 1, ..., 1, each at most its position. */
  predicate ValidDraws(draws: seq<nat>, i: nat) {
    |draws| == i && forall k | 0 <= k < i :: draws[k] <= i - k
  }

  /** Positions i down to 1, each swapped with the position drawn for it. */
  function Shuffle<T>(s: seq<T>, i: nat, draws: seq<nat>): seq<T>
    requires (i < |s| || i == 0) && ValidDraws(draws, i)
    decreases i
  {
    if i == 0 then s else Shuffle(Swap(s, i, draws[0]), i - 1, draws[1..])
  }

  lemma SwapPermutes<T>(s: seq<T>, i: nat, j: nat)
    requires i < |s| && j < |s|
    ensures multiset(Swap(s, i, j)) == multiset(s)
  {
  }

  /** The shuffle keeps the characters, and leaves what lies beyond position i. */
  lemma {:induction false} ShufflePermutes<T>(s: seq<T>, i: nat, draws: seq<nat>)
    requires (i < |s| || i == 0) && ValidDraws(draws, i)
    ensures multiset(Shuffle(s, i, draws)) == multiset(s) && |Shuffle(s, i, draws)| == |s|
    ensures forall k | i < k < |s| :: Shuffle(s, i, draws)[k] == s[k]
    decreases i
  {
    if i > 0 {
      SwapPermutes(s, i, draws[0]);
      ShufflePermutes(Swap(s, i, draws[0]), i - 1, draws[1..]);
    }
  }

  /** The last position is decided by the first draw. */
  lemma LastIsDrawn<T>(s: seq<T>, i: nat, draws: seq<nat>)
    requires 0 < i < |s| && ValidDraws(draws, i)
    ensures |Shuffle(s, i, draws)| == |s| && Shuffle(s, i, draws)[i] == s[draws[0]]
  {
    ShufflePermutes(Swap(s, i, draws[0]), i - 1, draws[1..]);
  }

  predicate AllDifferent<T(==)>(s: seq<T>) {
    forall i, j | 0 <= i < j < |s| :: s[i] != s[j]
  }

  /** Different draws give different permutations. */
  lemma {:induction false} ShuffleIsInjective<T>(s: seq<T>, i: nat, d1: seq<nat>, d2: seq<nat>)
    requires (i < |s| || i == 0) && AllDifferent(s) && ValidDraws(d1, i) && ValidDraws(d2, i)
    requires Shuffle(s, i, d1) == Shuffle(s, i, d2)
    ensures d1 == d2
    decreases i
  {
    if i > 0 {
      LastIsDrawn(s, i, d1);
      LastIsDrawn(s, i, d2);
      assert d1[0] == d2[0];
      ShuffleIsInjective(Swap(s, i, d1[0]), i - 1, d1[1..], d2[1..]);
      assert d1 == [d1[0]] + d1[1..] && d2 == [d2[0]] + d2[1..];
    }
  }

  lemma PrefixHolds<T>(s: seq<T>, t: seq<T>, i: nat)
    requires i < |s| == |t| && multiset(s[..i + 1]) == multiset(t[..i + 1])
    ensures exists j | 0 <= j <= i :: s[j] == t[i]
  {
    assert t[i] in multiset(t[..i + 1]);
    assert t[i] in s[..i + 1];
  }

  lemma OneLess<T>(s: seq<T>, t: seq<T>, i: nat)
    requires i < |s| == |t| && multiset(s[..i + 1]) == multiset(t[..i + 1]) && s[i] == t[i]
    ensures multiset(s[..i]) == multiset(t[..i])
  {
    assert s[..i + 1] == s[..i] + [s[i]];
    assert t[..i + 1] == t[..i] + [t[i]];
    assert multiset(s[..i]) == multiset(s[..i + 1]) - multiset{s[i]};
    assert multiset(t[..i]) == multiset(t[..i + 1]) - multiset{t[i]};
  }

  /** The two texts agree from position i on, and hold the same before it. */
  ghost predicate Rearranged<T>(s: seq<T>, t: seq<T>, i: nat) {
    i <= |s| == |t| && multiset(s[..i]) == multiset(t[..i]) && forall k | i <= k < |s| :: s[k] == t[k]
  }

  lemma SwapFixesOne<T>(s: seq<T>, t: seq<T>, i: nat, j: nat)
    requires j <= i < |s| && Rearranged(s, t, i + 1) && s[j] == t[i]
    ensures Rearranged(Swap(s, i, j), t, i)
  {
    var u := Swap(s, i, j);
    assert u[..i + 1] == Swap(s[..i + 1], i, j);
    SwapPermutes(s[..i + 1], i, j);
    OneLess(u, t, i);
  }

  /** Every rearrangement of the first i + 1 positions is reached by some draws. */
  lemma {:induction false} ShuffleIsSurjective<T>(s: seq<T>, i: nat, t: seq<T>) returns (draws: seq<nat>)
    requires i < |s| && Rearranged(s, t, i + 1)
    ensures ValidDraws(draws, i) && Shuffle(s, i, draws) == t
    decreases i
  {
    hide Rearranged, Swap;
    if i == 0 {
      draws := [];
      SingleIsSame(s, t);
    } else {
      RearrangedPrefix(s, t, i);
      PrefixHolds(s, t, i);
      var j :| 0 <= j <= i && s[j] == t[i];
      SwapFixesOne(s, t, i, j);
      var rest := ShuffleIsSurjective(Swap(s, i, j), i - 1, t);
      draws := [j] + rest;
      assert draws[1..] == rest;
    }
  }

  lemma RearrangedPrefix<T>(s: seq<T>, t: seq<T>, i: nat)
    requires i < |s| && Rearranged(s, t, i + 1)
    ensures |t| == |s| && multiset(s[..i + 1]) == multiset(t[..i + 1])
  {
  }

  lemma SingleIsSame<T>(s: seq<T>, t: seq<T>)
    requires s != [] && Rearranged(s, t, 1)
    ensures s == t
  {
    assert s[..1] == [s[0]] && t[..1] == [t[0]];
    assert s[0] in multiset(t[..1]);
  }

  ghost predicate Reaches<T>(s: seq<T>, draws: seq<nat>, t: seq<T>)
    requires s != []
  {
    ValidDraws(draws, |s| - 1) && Shuffle(s, |s| - 1, draws) == t
  }

  /** The draws of a whole shuffle and the permutations of the text correspond one to one. */
  lemma ShuffleIsBijective<T>(s: seq<T>, t: seq<T>)
    requires s != [] && AllDifferent(s)
    ensures multiset(t) == multiset(s) <==> exists draws :: Reaches(s, draws, t)
    ensures forall d1, d2 | Reaches(s, d1, t) && Reaches(s, d2, t) :: d1 == d2
  {
    if multiset(t) == multiset(s) {
      assert |s| == |multiset(s)| && |t| == |multiset(t)|;
      assert s[..|s|] == s && t[..|t|] == t;
      var draws := ShuffleIsSurjective(s, |s| - 1, t);
      assert Reaches(s, draws, t);
    }
    forall draws | Reaches(s, draws, t) ensures multiset(t) == multiset(s) {
      ShufflePermutes(s, |s| - 1, draws);
    }
    forall d1, d2 | Reaches(s, d1, t) && Reaches(s, d2, t) ensures d1 == d2 {
      ShuffleIsInjective(s, |s| - 1, d1, d2);
    }
  }

  // ---------------------------------------------------------------- generating

  /** The draws are those the generator of random numbers gives, one for each position. */
  method ShuffleInPlace(output: array<char>, draws: seq<nat>)
    requires output.Length > 0 && ValidDraws(draws, output.Length - 1)
    modifies output
    ensures output[..] == Shuffle(old(output[..]), output.Length - 1, draws)
  {
    ghost var start := output[..];
    var n := output.Length - 1;
    var i := n;
    assert draws[0..] == draws;
    while i > 0
      invariant 0 <= i <= n && ValidDraws(draws[n - i..], i)
      invariant Shuffle(output[..], i, draws[n - i..]) == Shuffle(start, n, draws)
    {
      var j := draws[n - i];
      assert draws[n - i..][0] == j && draws[n - i..][1..] == draws[n - (i - 1)..];
      ghost var swapped := Swap(output[..], i, j);
      output[i], output[j] := output[j], output[i];
      assert output[..] == swapped;
      i := i - 1;
    }
  }

  /** The enabled classes among the first n. */
  function Chosen(classes: seq<string>, enabled: seq<bool>, n: nat): seq<string>
    requires n <= |classes| == |enabled|
  {
    if n == 0 then [] else Chosen(classes, enabled, n - 1) + if enabled[n - 1] then [classes[n - 1]] else []
  }

  lemma {:induction false} ChosenAreTheEnabled(classes: seq<string>, enabled: seq<bool>, n: nat)
    requires n <= |classes| == |enabled|
    ensures forall c :: c in Chosen(classes, enabled, n) <==> exists i | 0 <= i < n :: enabled[i] && classes[i] == c
    ensures |Chosen(classes, enabled, n)| <= n
    ensures Chosen(classes, enabled, n) == [] <==> forall i | 0 <= i < n :: !enabled[i]
  {
    if n > 0 { ChosenAreTheEnabled(classes, enabled, n - 1); }
  }

  function Joined(classes: seq<string>): (alphabet: string)
    ensures forall c :: c in alphabet <==> FromOneOf(c, classes)
  {
    if classes == [] then []
    else
      var n := |classes| - 1;
      var before := Joined(classes[..n]);
      JoinedOneMore(classes, before);
      before + classes[n]
  }

  lemma JoinedOneMore(classes: seq<string>, before: string)
    requires classes != [] && forall c :: c in before <==> FromOneOf(c, classes[..|classes| - 1])
    ensures forall c :: c in before + classes[|classes| - 1] <==> FromOneOf(c, classes)
  {
    var n := |classes| - 1;
    forall c ensures c in before + classes[n] <==> FromOneOf(c, classes) {
      if c in before {
        var k :| 0 <= k < n && c in classes[..n][k];
        assert c in classes[k];
      }
      if FromOneOf(c, classes) && c !in classes[n] {
        var k :| 0 <= k < |classes| && c in classes[k];
        assert c in classes[..n][k];
      }
    }
  }

  ghost predicate Has(text: string, characters: string) {
    exists i | 0 <= i < |text| :: text[i] in characters
  }

  ghost predicate FromOneOf(c: char, classes: seq<string>) {
    exists k | 0 <= k < |classes| :: c in classes[k]
  }

  /** A password of the length, made of the classes, with a character of each. */
  ghost predicate Meets(text: string, length: int, classes: seq<string>) {
    && |text| == length
    && (forall i | 0 <= i < |text| :: FromOneOf(text[i], classes))
    && (forall k | 0 <= k < |classes| :: Has(text, classes[k]))
  }

  lemma RearrangedHolds(text: string, other: string, c: char)
    requires multiset(other) == multiset(text)
    ensures c in other <==> c in text
  {
    assert c in other <==> c in multiset(other);
    assert c in text <==> c in multiset(text);
  }

  lemma RearrangedIsFrom(text: string, other: string, classes: seq<string>)
    requires forall c | c in text :: FromOneOf(c, classes)
    requires forall c :: c in other <==> c in text
    ensures forall i | 0 <= i < |other| :: FromOneOf(other[i], classes)
  {
    hide FromOneOf;
    forall i | 0 <= i < |other| ensures FromOneOf(other[i], classes) {
      assert other[i] in text;
    }
  }

  lemma RearrangedHas(text: string, other: string, characters: string)
    requires Has(text, characters) && forall c :: c in other <==> c in text
    ensures Has(other, characters)
  {
    var i :| 0 <= i < |text| && text[i] in characters;
    assert text[i] in other;
    var j :| 0 <= j < |other| && other[j] == text[i];
  }

  /** Rearranging a password keeps it one. */
  lemma RearrangedMeets(text: string, other: string, length: int, classes: seq<string>)
    requires Meets(text, length, classes) && multiset(other) == multiset(text)
    ensures Meets(other, length, classes)
  {
    hide Has, FromOneOf;
    assert |text| == |multiset(text)| && |other| == |multiset(other)|;
    forall c ensures c in other <==> c in text { RearrangedHolds(text, other, c); }
    forall c | c in text ensures FromOneOf(c, classes) {
      var i :| 0 <= i < |text| && text[i] == c;
    }
    RearrangedIsFrom(text, other, classes);
    forall k | 0 <= k < |classes| ensures Has(other, classes[k]) {
      RearrangedHas(text, other, classes[k]);
    }
  }

  lemma JoinedAppends(classes: seq<string>, more: string)
    ensures Joined(classes + [more]) == Joined(classes) + more
  {
    assert (classes + [more])[..|classes|] == classes;
  }

  /** The enabled classes and their alphabet. */
  method Collect(classes: seq<string>, enabled: seq<bool>) returns (selected: seq<string>, alphabet: string)
    requires |enabled| == |classes|
    ensures selected == Chosen(classes, enabled, |classes|) && alphabet == Joined(selected)
  {
    hide Joined;
    alphabet, selected := "", [];
    NothingJoined();
    for i := 0 to |classes|
      invariant selected == Chosen(classes, enabled, i) && alphabet == Joined(selected)
    {
      if enabled[i] {
        JoinedAppends(selected, classes[i]);
        alphabet := alphabet + classes[i];
        selected := selected + [classes[i]];
      }
    }
  }

  lemma NothingJoined()
    ensures Joined([]) == ""
  {
  }

  /** Where character k of the unshuffled password is picked from. */
  function Pool(selected: seq<string>, alphabet: string, k: nat): string {
    if k < |selected| then selected[k] else alphabet
  }

  predicate ValidPicks(selected: seq<string>, alphabet: string, length: nat, picks: seq<nat>) {
    |picks| == length && forall k | 0 <= k < length :: picks[k] < |Pool(selected, alphabet, k)|
  }

  /** One character of each class, then characters of the alphabet. */
  function Filled(selected: seq<string>, alphabet: string, length: nat, picks: seq<nat>): string
    requires ValidPicks(selected, alphabet, length, picks)
  {
    seq(length, k requires 0 <= k < length => Pool(selected, alphabet, k)[picks[k]])
  }

  method Fill(length: nat, selected: seq<string>, alphabet: string, picks: seq<nat>) returns (output: array<char>)
    requires |selected| <= length && ValidPicks(selected, alphabet, length, picks)
    ensures fresh(output) && output.Length == length && output[..] == Filled(selected, alphabet, length, picks)
  {
    output := new char[length];
    for k := 0 to |selected|
      invariant forall m | 0 <= m < k :: output[m] == Pool(selected, alphabet, m)[picks[m]]
    {
      output[k] := selected[k][picks[k]];
    }
    var n := |selected|;
    while n < length
      invariant |selected| <= n <= length
      invariant forall m | 0 <= m < n :: output[m] == Pool(selected, alphabet, m)[picks[m]]
    {
      output[n] := alphabet[picks[n]];
      n := n + 1;
    }
  }

  /** Numbers the generator of random numbers can give for a password of that length. */
  predicate Drawable(selected: seq<string>, length: nat, picks: seq<nat>, draws: seq<nat>) {
    length > 0 && ValidPicks(selected, Joined(selected), length, picks) && ValidDraws(draws, length - 1)
  }

  /** The password those numbers make. */
  function Made(selected: seq<string>, length: nat, picks: seq<nat>, draws: seq<nat>): string
    requires Drawable(selected, length, picks, draws)
  {
    Shuffle(Filled(selected, Joined(selected), length, picks), length - 1, draws)
  }

  lemma MadeMeets(selected: seq<string>, length: nat, picks: seq<nat>, draws: seq<nat>)
    requires |selected| <= length && Drawable(selected, length, picks, draws)
    ensures Meets(Made(selected, length, picks, draws), length, selected)
  {
    hide Joined, Meets, Shuffle;
    var filled := Filled(selected, Joined(selected), length, picks);
    FilledMeets(filled, length, selected, Joined(selected));
    ShufflePermutes(filled, length - 1, draws);
    RearrangedMeets(filled, Made(selected, length, picks, draws), length, selected);
  }

  predicate SomeEnabled(enabled: seq<bool>) {
    exists k | 0 <= k < |enabled| :: enabled[k]
  }

  predicate InEnabled(c: char, classes: seq<string>, enabled: seq<bool>)
    requires |classes| == |enabled|
  {
    exists k | 0 <= k < |classes| :: enabled[k] && c in classes[k]
  }

  /** The length asked for, characters of enabled classes only, and one at least of each. */
  ghost predicate Fulfils(text: string, length: int, classes: seq<string>, enabled: seq<bool>)
    requires |classes| == |enabled|
  {
    && |text| == length
    && (forall i | 0 <= i < |text| :: InEnabled(text[i], classes, enabled))
    && (forall k | 0 <= k < |classes| && enabled[k] :: Has(text, classes[k]))
  }

  lemma CharacterIsEnabled(c: char, classes: seq<string>, enabled: seq<bool>)
    requires |classes| == |enabled| && FromOneOf(c, Chosen(classes, enabled, |classes|))
    ensures InEnabled(c, classes, enabled)
  {
    var selected := Chosen(classes, enabled, |classes|);
    ChosenAreTheEnabled(classes, enabled, |classes|);
    hide Chosen;
    var k :| 0 <= k < |selected| && c in selected[k];
    assert selected[k] in selected;
    var i :| 0 <= i < |classes| && enabled[i] && classes[i] == selected[k];
  }

  lemma EnabledIsSelected(classes: seq<string>, enabled: seq<bool>, i: nat)
    requires |classes| == |enabled| && i < |classes| && enabled[i]
    ensures classes[i] in Chosen(classes, enabled, |classes|)
  {
    ChosenAreTheEnabled(classes, enabled, |classes|);
    hide Chosen;
  }

  lemma MeetingFulfils(text: string, length: int, classes: seq<string>, enabled: seq<bool>)
    requires |classes| == |enabled| && Meets(text, length, Chosen(classes, enabled, |classes|))
    ensures Fulfils(text, length, classes, enabled)
  {
    hide Chosen, Has, InEnabled, FromOneOf;
    forall i | 0 <= i < |text| ensures InEnabled(text[i], classes, enabled) {
      CharacterIsEnabled(text[i], classes, enabled);
    }
    forall k | 0 <= k < |classes| && enabled[k] ensures Has(text, classes[k]) {
      EnabledIsSelected(classes, enabled, k);
    }
  }

  predicate Accepted(length: int, enabled: seq<bool>) {
    8 <= length <= 256 && SomeEnabled(enabled)
  }

  /** Accepted exactly for a length from 8 to 256 and at least one class; then the password is the one drawn. */
  method Generate(classes: seq<string>, enabled: seq<bool>, length: int, picks: seq<nat>, draws: seq<nat>)
    returns (r: Generated)
    requires |classes| == |enabled| <= 8
    requires Accepted(length, enabled) ==> Drawable(Chosen(classes, enabled, |classes|), length, picks, draws)
    ensures Accepted(length, enabled) ==> r == Password(Made(Chosen(classes, enabled, |classes|), length, picks, draws))
    ensures !Accepted(length, enabled) ==>
              r == Rejected(if 8 <= length <= 256 then "Select at least one character class"
                            else "Password length must be between 8 and 256")
    ensures r.Password? ==> Fulfils(r.text, length, classes, enabled)
  {
    hide Joined, Chosen, Meets, Fulfils, Shuffle;
    if length < 8 || length > 256 {
      return Rejected("Password length must be between 8 and 256");
    }
    var selected, alphabet := Collect(classes, enabled);
    ChosenAreTheEnabled(classes, enabled, |classes|);
    if selected == [] {
      return Rejected("Select at least one character class");
    }
    if length < |selected| {
      return Rejected("Password is too short for the selected character classes");
    }
    var output := Fill(length, selected, alphabet, picks);
    ShuffleInPlace(output, draws);
    MadeMeets(selected, length, picks, draws);
    MeetingFulfils(Made(selected, length, picks, draws), length, classes, enabled);
    r := Password(output[..]);
  }

  lemma LettersAt(i: nat)
    requires i < 26
    ensures "ABCDEFGHIJKLMNOPQRSTUVWXYZ"[i] as int == 'A' as int + i
    ensures "abcdefghijklmnopqrstuvwxyz"[i] as int == 'a' as int + i
  {
  }

  lemma InAlphabet(c: char, letters: string, first: char)
    requires |letters| == 26 && first <= 'a' && forall i | 0 <= i < 26 :: letters[i] as int == first as int + i
    ensures c in letters <==> first as int <= c as int < first as int + 26
  {
    if first as int <= c as int < first as int + 26 { assert letters[c as int - first as int] == c; }
  }

  lemma UpperCase(c: char)
    ensures c in CLASSES[0] <==> 'A' <= c <= 'Z'
  {
    forall i | 0 <= i < 26 ensures "ABCDEFGHIJKLMNOPQRSTUVWXYZ"[i] as int == 'A' as int + i { LettersAt(i); }
    InAlphabet(c, CLASSES[0], 'A');
  }

  lemma LowerCase(c: char)
    ensures c in CLASSES[1] <==> 'a' <= c <= 'z'
  {
    forall i | 0 <= i < 26 ensures "abcdefghijklmnopqrstuvwxyz"[i] as int == 'a' as int + i { LettersAt(i); }
    InAlphabet(c, CLASSES[1], 'a');
  }

  lemma Digit(c: char)
    ensures c in CLASSES[2] <==> '0' <= c <= '9'
  {
    assert CLASSES[2] == "0123456789";
  }

  lemma SymbolIsNoLetter(c: char)
    ensures c in CLASSES[3] <==> c in "!@#$%^&*()-_=+[]{}:,.?"
    ensures c in CLASSES[3] ==> !('A' <= c <= 'Z') && !('a' <= c <= 'z') && !('0' <= c <= '9')
  {
    assert CLASSES[3] == "!@#$%^&*()-_=+[]{}:,.?";
  }

  /** The four classes, as their characters. */
  ghost predicate InClass(c: char, k: nat) {
    match k
    case 0 => 'A' <= c <= 'Z'
    case 1 => 'a' <= c <= 'z'
    case 2 => '0' <= c <= '9'
    case 3 => c in "!@#$%^&*()-_=+[]{}:,.?"
    case _ => false
  }

  lemma ClassesAreTheWished(c: char)
    ensures |CLASSES| == 4 && forall k: nat | k < 4 :: c in CLASSES[k] <==> InClass(c, k)
    ensures forall j: nat, k: nat | j < 4 && k < 4 && InClass(c, j) && InClass(c, k) :: j == k
  {
    UpperCase(c);
    LowerCase(c);
    Digit(c);
    SymbolIsNoLetter(c);
    assert |CLASSES| == 4;
    hide CLASSES;
  }

  ghost predicate SomeInClass(text: string, k: nat) {
    exists i | 0 <= i < |text| :: InClass(text[i], k)
  }

  ghost predicate WishedCharacter(c: char, enabled: seq<bool>)
    requires |enabled| == 4
  {
    || (enabled[0] && InClass(c, 0)) || (enabled[1] && InClass(c, 1))
    || (enabled[2] && InClass(c, 2)) || (enabled[3] && InClass(c, 3))
  }

  /**
   A password as the user wished it: of the length, from the enabled ones among upper case, lower case, digits
   and symbols, and with a character of each of these.
   */
  ghost predicate Wished(text: string, length: int, enabled: seq<bool>)
    requires |enabled| == 4
  {
    && |text| == length
    && (forall i | 0 <= i < |text| :: WishedCharacter(text[i], enabled))
    && (forall k: nat | k < 4 && enabled[k] :: SomeInClass(text, k))
  }

  lemma WishedIsEnabled(c: char, enabled: seq<bool>)
    requires |enabled| == 4
    ensures |CLASSES| == 4 && (InEnabled(c, CLASSES, enabled) <==> WishedCharacter(c, enabled))
  {
    ClassesAreTheWished(c);
    assert |CLASSES| == 4;
    hide CLASSES, InClass;
  }

  lemma SomeIsHas(text: string, k: nat)
    requires k < 4
    ensures |CLASSES| == 4 && (Has(text, CLASSES[k]) <==> SomeInClass(text, k))
  {
    assert |CLASSES| == 4;
    forall c ensures c in CLASSES[k] <==> InClass(c, k) { ClassesAreTheWished(c); }
    hide CLASSES, InClass;
  }

  lemma WishedIsFulfilled(text: string, length: int, enabled: seq<bool>)
    requires |enabled| == 4
    ensures |CLASSES| == 4 && (Wished(text, length, enabled) <==> Fulfils(text, length, CLASSES, enabled))
  {
    assert |CLASSES| == 4;
    hide CLASSES, InEnabled, WishedCharacter, Has, SomeInClass;
    forall i | 0 <= i < |text| ensures InEnabled(text[i], CLASSES, enabled) <==> WishedCharacter(text[i], enabled) {
      WishedIsEnabled(text[i], enabled);
    }
    forall k: nat | k < 4 ensures Has(text, CLASSES[k]) <==> SomeInClass(text, k) {
      SomeIsHas(text, k);
    }
  }

  method GeneratePassword(
    length: int, upper: bool, lower: bool, numbers: bool, symbols: bool, picks: seq<nat>, draws: seq<nat>)
    returns (r: Generated)
    requires Accepted(length, [upper, lower, numbers, symbols]) ==>
               Drawable(Chosen(CLASSES, [upper, lower, numbers, symbols], 4), length, picks, draws)
    ensures r.Password? <==> 8 <= length <= 256 && (upper || lower || numbers || symbols)
    ensures r.Password? ==> Wished(r.text, length, [upper, lower, numbers, symbols])
    ensures Accepted(length, [upper, lower, numbers, symbols]) ==>
              r == Password(Made(Chosen(CLASSES, [upper, lower, numbers, symbols], 4), length, picks, draws))
    ensures r.Rejected? ==>
              r.reason == if 8 <= length <= 256 then "Select at least one character class"
                          else "Password length must be between 8 and 256"
  {
    hide Fulfils, Wished, Drawable, Chosen, Made;
    var enabled := [upper, lower, numbers, symbols];
    assert enabled[0] == upper && enabled[1] == lower && enabled[2] == numbers && enabled[3] == symbols;
    r := Generate(CLASSES, enabled, length, picks, draws);
    if r.Password? { WishedIsFulfilled(r.text, length, enabled); }
  }

  // ------------------------------------------------- every password can come

  ghost predicate Apart(a: string, b: string) {
    forall c | c in a :: c !in b
  }

  ghost predicate Disjoint(classes: seq<string>) {
    forall i, j | 0 <= i < j < |classes| :: Apart(classes[i], classes[j])
  }

  lemma {:induction false} ChosenAreDisjoint(classes: seq<string>, enabled: seq<bool>, n: nat)
    requires n <= |classes| == |enabled| && Disjoint(classes)
    ensures Disjoint(Chosen(classes, enabled, n))
  {
    hide Apart;
    if n > 0 {
      ChosenAreDisjoint(classes, enabled, n - 1);
      var before := Chosen(classes, enabled, n - 1);
      ChosenAreTheEnabled(classes, enabled, n - 1);
      forall k | 0 <= k < |before| ensures Apart(before[k], classes[n - 1]) {
        assert before[k] in before;
      }
    }
  }

  /** The characters rearranged so that each of the first k positions holds one of its class. */
  lemma {:induction false} Arranged(text: string, selected: seq<string>, k: nat) returns (other: string)
    requires k <= |selected| && Disjoint(selected) && forall m | 0 <= m < |selected| :: Has(text, selected[m])
    ensures multiset(other) == multiset(text) && |other| == |text|
    ensures k <= |text| && forall m | 0 <= m < k :: other[m] in selected[m]
  {
    if k == 0 {
      other := text;
    } else {
      var before := Arranged(text, selected, k - 1);
      forall c ensures c in before <==> c in text { RearrangedHolds(text, before, c); }
      RearrangedHas(text, before, selected[k - 1]);
      var p :| 0 <= p < |before| && before[p] in selected[k - 1];
      other := Swap(before, k - 1, p);
      SwapPermutes(before, k - 1, p);
    }
  }

  function IndexOf(c: char, s: string): (i: nat)
    requires c in s
    ensures i < |s| && s[i] == c
  {
    if s[0] == c then 0 else 1 + IndexOf(c, s[1..])
  }

  lemma PicksFor(selected: seq<string>, other: string) returns (picks: seq<nat>)
    requires |selected| <= |other| && forall m | 0 <= m < |selected| :: other[m] in selected[m]
    requires forall m | 0 <= m < |other| :: FromOneOf(other[m], selected)
    ensures ValidPicks(selected, Joined(selected), |other|, picks)
    ensures Filled(selected, Joined(selected), |other|, picks) == other
  {
    hide FromOneOf;
    var alphabet := Joined(selected);
    picks := seq(|other|, m requires 0 <= m < |other| => IndexOf(other[m], Pool(selected, alphabet, m)));
  }

  lemma ArrangedIsFrom(text: string, other: string, selected: seq<string>)
    requires multiset(other) == multiset(text) && Meets(text, |text|, selected)
    ensures forall m | 0 <= m < |other| :: FromOneOf(other[m], selected)
  {
    hide FromOneOf, Has;
    forall c ensures c in other <==> c in text { RearrangedHolds(text, other, c); }
    forall c | c in text ensures FromOneOf(c, selected) {
      var i :| 0 <= i < |text| && text[i] == c;
    }
    RearrangedIsFrom(text, other, selected);
  }

  /** Whatever the user's wishes allow, some numbers make it, for any classes without common characters. */
  lemma EveryTextCanBeMade(text: string, selected: seq<string>) returns (picks: seq<nat>, draws: seq<nat>)
    requires text != [] && Disjoint(selected) && Meets(text, |text|, selected)
    ensures Drawable(selected, |text|, picks, draws) && Made(selected, |text|, picks, draws) == text
  {
    hide Joined, Shuffle, Has, Swap, Disjoint, FromOneOf;
    var other := Arranged(text, selected, |selected|);
    ArrangedIsFrom(text, other, selected);
    hide Meets;
    picks := PicksFor(selected, other);
    assert other[..|other|] == other && text[..|text|] == text;
    draws := ShuffleIsSurjective(other, |text| - 1, text);
  }

  lemma ClassesAreDisjoint()
    ensures Disjoint(CLASSES)
  {
    assert |CLASSES| == 4;
    hide CLASSES, InClass;
    forall i: nat, j: nat | i < j < 4 ensures Apart(CLASSES[i], CLASSES[j]) {
      forall c | c in CLASSES[i] ensures c !in CLASSES[j] { ClassesAreTheWished(c); }
    }
  }

  lemma EnabledIsFromChosen(c: char, classes: seq<string>, enabled: seq<bool>)
    requires |classes| == |enabled| && InEnabled(c, classes, enabled)
    ensures FromOneOf(c, Chosen(classes, enabled, |classes|))
  {
    var k :| 0 <= k < |classes| && enabled[k] && c in classes[k];
    EnabledIsSelected(classes, enabled, k);
    var selected := Chosen(classes, enabled, |classes|);
    hide Chosen;
    var m :| 0 <= m < |selected| && selected[m] == classes[k];
  }

  lemma ChosenIsHad(text: string, classes: seq<string>, enabled: seq<bool>, m: nat)
    requires |classes| == |enabled| && m < |Chosen(classes, enabled, |classes|)|
    requires forall k | 0 <= k < |classes| && enabled[k] :: Has(text, classes[k])
    ensures Has(text, Chosen(classes, enabled, |classes|)[m])
  {
    hide Has;
    ChosenAreTheEnabled(classes, enabled, |classes|);
    var selected := Chosen(classes, enabled, |classes|);
    hide Chosen;
    assert selected[m] in selected;
  }

  lemma FulfillingMeets(text: string, length: int, classes: seq<string>, enabled: seq<bool>)
    requires |classes| == |enabled| && Fulfils(text, length, classes, enabled)
    ensures Meets(text, length, Chosen(classes, enabled, |classes|))
  {
    hide Chosen, Has, InEnabled, FromOneOf;
    var selected := Chosen(classes, enabled, |classes|);
    forall i | 0 <= i < |text| ensures FromOneOf(text[i], selected) {
      EnabledIsFromChosen(text[i], classes, enabled);
    }
    forall m | 0 <= m < |selected| ensures Has(text, selected[m]) {
      ChosenIsHad(text, classes, enabled, m);
    }
  }

  /**
   The generator leaves nothing out: a text can come from it, for some numbers drawn, if and only if it is a
   password as the user wished it.
   */
  lemma PossiblePasswords(text: string, length: int, enabled: seq<bool>)
    requires Accepted(length, enabled) && |enabled| == 4
    ensures |CLASSES| == 4
    ensures var selected := Chosen(CLASSES, enabled, 4);
      Wished(text, length, enabled)
      <==> exists picks, draws ::
             Drawable(selected, length, picks, draws) && Made(selected, length, picks, draws) == text
  {
    WishedIsFulfilled(text, length, enabled);
    ClassesAreDisjoint();
    hide Chosen, Wished, Fulfils, Meets, Disjoint, Drawable, Made, CLASSES;
    var selected := Chosen(CLASSES, enabled, 4);
    ChosenAreTheEnabled(CLASSES, enabled, 4);
    if Wished(text, length, enabled) {
      FulfillingMeets(text, length, CLASSES, enabled);
      MeetsLength(text, length, selected);
      ChosenAreDisjoint(CLASSES, enabled, 4);
      var picks, draws := EveryTextCanBeMade(text, selected);
    }
    forall picks, draws | Drawable(selected, length, picks, draws) && Made(selected, length, picks, draws) == text
      ensures Wished(text, length, enabled)
    {
      MadeMeets(selected, length, picks, draws);
      MeetingFulfils(text, length, CLASSES, enabled);
    }
  }

  lemma MeetsLength(text: string, length: int, selected: seq<string>)
    requires Meets(text, length, selected)
    ensures |text| == length
  {
  }

  lemma FilledMeets(filled: string, length: nat, selected: seq<string>, alphabet: string)
    requires |selected| <= |filled| == length && alphabet == Joined(selected)
    requires forall m | 0 <= m < |selected| :: filled[m] in selected[m]
    requires forall m | |selected| <= m < length :: filled[m] in alphabet
    ensures Meets(filled, length, selected)
  {
    hide Joined;
    forall i | 0 <= i < length ensures FromOneOf(filled[i], selected) {
      if i < |selected| { assert filled[i] in selected[i]; }
    }
    forall k | 0 <= k < |selected| ensures Has(filled, selected[k]) {
      assert filled[k] in selected[k];
    }
  }
}
