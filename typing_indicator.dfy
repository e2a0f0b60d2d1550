/**
 * The "is typing" bubble: the sentence naming who is typing, the avatar colour chosen by a
 * string hash computed with JavaScript's 32-bit `<<`, and the overflow avatars and badge.
 */
module TypingIndicator {
  import opened Wrappers
  import opened Text
  import opened Js

  const Gradients: seq<string> := [
    "from-blue-500 to-indigo-600",
    "from-purple-500 to-pink-600",
    "from-green-500 to-teal-600",
    "from-orange-500 to-red-600",
    "from-indigo-500 to-purple-600",
    "from-teal-500 to-cyan-600",
    "from-rose-500 to-pink-600",
    "from-amber-500 to-orange-600"
  ]

  const TypingSingular := " est en train d'écrire"
  const TypingPlural := " sont en train d'écrire"

  /** One step of the hash: `hash = code + ((hash << 5) - hash)`, the shift taken on 32 bits. */
  function HashStep(hash: int, c: char): int {
    c as int + (ShiftLeft5(hash) - hash)
  }

  /** The hash of a whole name: the step folded over its characters from the left, from 0. */
  function Hash(s: string): int
    decreases |s|
  {
    if s == [] then 0 else HashStep(Hash(s[..|s| - 1]), s[|s| - 1])
  }

  /** The gradient slot the name is drawn with: `Math.abs(hash) % 8`. */
  function GradientIndex(username: string): (r: nat)
    ensures r < |Gradients|
  {
    Abs(Hash(username)) % |Gradients|
  }

  /**
   * `getAvatarGradient`: runs the hash loop over the name and picks the gradient; the empty
   * name always gets the first one.
   */
  method AvatarGradient(username: string) returns (index: nat, gradient: string)
    ensures index == GradientIndex(username) && index < 8
    ensures gradient == Gradients[index]
    ensures username == [] ==> index == 0
  {
    var hash := 0;
    var i := 0;
    while i < |username|
      invariant 0 <= i <= |username|
      invariant hash == Hash(username[..i])
    {
      assert username[..i + 1][..i] == username[..i];
      hash := username[i] as int + (ShiftLeft5(hash) - hash);
      i := i + 1;
    }
    assert username[..|username|] == username;
    index := Abs(hash) % |Gradients|;
    gradient := Gradients[index];
  }

  /** The sentence under the dots; only ever built for a non-empty list. */
  function TypingText(users: seq<string>): (r: string)
    requires users != []
    ensures |users| == 1 ==> r == users[0] + TypingSingular
    ensures |users| == 2 ==> r == users[0] + " et " + users[1] + TypingPlural
    ensures |users| >= 3 ==> r == Join(users[..|users| - 1], ", ") + " et " + users[|users| - 1] + TypingPlural
  {
    if |users| == 1 then users[0] + TypingSingular
    else if |users| == 2 then users[0] + " et " + users[1] + TypingPlural
    else Join(users[..|users| - 1], ", ") + " et " + users[|users| - 1] + TypingPlural
  }

  /** The two-name sentence is the general rule applied to two names. */
  lemma TwoNamesFollowGeneralRule(users: seq<string>)
    requires |users| == 2
    ensures TypingText(users) == Join(users[..1], ", ") + " et " + users[1] + TypingPlural
  {
    assert users[..1] == [users[0]];
  }

  /** `parts.join(sep)` contains every part; `k` is where part `i` starts. */
  lemma {:induction false} JoinPlacesEach(parts: seq<string>, sep: string, i: nat) returns (k: int)
    requires i < |parts|
    ensures OccursAt(Join(parts, sep), parts[i], k)
    decreases |parts|
  {
    var n := |parts|;
    if n == 1 {
      k := 0;
      assert OccursAt(Join(parts, sep), parts[i], 0);
    } else {
      var init := Join(parts[..n - 1], sep);
      if i == n - 1 {
        OccursBetween(init + sep, parts[i], "");
        assert init + sep + parts[i] + "" == Join(parts, sep);
        k := |init + sep|;
      } else {
        assert parts[..n - 1][i] == parts[i];
        k := JoinPlacesEach(parts[..n - 1], sep, i);
        OccursInLeft(init, sep + parts[n - 1], parts[i], k);
        assert init + (sep + parts[n - 1]) == Join(parts, sep);
      }
    }
  }

  lemma OccursBetween(a: string, x: string, b: string)
    ensures OccursAt(a + x + b, x, |a|)
  {
    assert (a + x + b)[|a|..|a| + |x|] == x;
  }

  /** Every typing user is named in the sentence. */
  lemma EveryTypistNamed(users: seq<string>, i: nat)
    requires i < |users|
    ensures Contains(TypingText(users), users[i])
  {
    var n := |users|;
    var r := TypingText(users);
    if n == 1 {
      OccursBetween("", users[0], TypingSingular);
      assert r == "" + users[0] + TypingSingular;
    } else if n == 2 && i == 0 {
      OccursBetween("", users[0], " et " + users[1] + TypingPlural);
      assert r == "" + users[0] + (" et " + users[1] + TypingPlural);
    } else if n == 2 {
      OccursBetween(users[0] + " et ", users[1], TypingPlural);
    } else if i == n - 1 {
      OccursBetween(Join(users[..n - 1], ", ") + " et ", users[i], TypingPlural);
    } else {
      NamedInHead(users, i);
    }
  }

  /** With three or more names, each name but the last appears in the comma-separated head. */
  lemma NamedInHead(users: seq<string>, i: nat)
    requires |users| >= 3 && i < |users| - 1
    ensures Contains(TypingText(users), users[i])
  {
    var n := |users|;
    var head := Join(users[..n - 1], ", ");
    var tail := " et " + users[n - 1] + TypingPlural;
    HeadAndTail(users);
    assert users[..n - 1][i] == users[i];
    var k := JoinPlacesEach(users[..n - 1], ", ", i);
    OccursInLeft(head, tail, users[i], k);
  }

  /** With three or more names the sentence is the joined head followed by the rest. */
  lemma HeadAndTail(users: seq<string>)
    requires |users| >= 3
    ensures TypingText(users) == Join(users[..|users| - 1], ", ") + (" et " + users[|users| - 1] + TypingPlural)
  {
  }

  /** The smaller avatars after the first: `users.slice(1, 4)`, only when two or more type. */
  function ExtraAvatars(users: seq<string>): (r: seq<string>)
    ensures |r| <= 3
    ensures |users| <= 1 ==> r == []
    ensures |users| > 1 ==> |r| == (if |users| < 4 then |users| else 4) - 1
    ensures forall i :: 0 <= i < |r| ==> r[i] == users[i + 1]
  {
    if |users| > 1 then Slice(users, 1, 4) else []
  }

  /** The "+N" badge: present only when more than four users type, N counting the rest. */
  function Badge(users: seq<string>): (r: int)
    ensures r > 0 <==> |users| > 4
    ensures r > 0 ==> r == |users| - 4
  {
    if |users| > 4 then |users| - 4 else 0
  }

  /** What is drawn: nothing for an empty list. */
  datatype Bubble = Bubble(firstGradient: nat, text: string, extras: seq<string>, badge: int)

  function Render(users: seq<string>): (r: Option<Bubble>)
    ensures r.None? <==> users == []
    ensures r.Some? ==>
      && r.value.firstGradient == GradientIndex(users[0])
      && r.value.text == TypingText(users) + "..."
      && 1 + |r.value.extras| + r.value.badge == |users|
  {
    if users == [] then None
    else Some(Bubble(GradientIndex(users[0]), TypingText(users) + "...", ExtraAvatars(users), Badge(users)))
  }
}
