/** `util.format`: a loop that copies the template in segments, against a specification that reads it
    unit by unit. */
module UtilFormat {

  /** A UTF-16 code unit. */
  type Unit = u: int | 0 <= u < 0x1_0000

  type Text = seq<Unit>

  const PERCENT: Unit := 37
  const SPACE: Unit := 32

  datatype Value = String(text: Text) | Other(id: int)

  /** How a specifier shows a value, and how a value is shown on its own. */
  datatype Renderer = Renderer(substitute: (Unit, Value) -> Text, inspect: Value -> Text)

  /** The letters s d i f j o O c. */
  predicate IsSpecifier(u: Unit) {
    u == 115 || u == 100 || u == 105 || u == 102 || u == 106 || u == 111 || u == 79 || u == 99
  }

  // ---------- the template, unit by unit ----------

  /** A unit that is kept, or an argument put in the place of a specifier. */
  datatype Piece = Keep(unit: Unit) | Use(specifier: Unit, argument: nat)

  /** The piece at position `i` when `used` of `count` arguments are gone, and where and with how many
      used the next one begins.  Without arguments, and for a last unit that has no successor, the
      unit is kept; `%%` is kept as one unit; a specifier takes the next argument if there is one. */
  function Bite(t: Text, i: nat, used: nat, count: nat): (r: (Piece, nat, nat))
    requires i < |t|
    ensures i < r.1 <= |t|
  {
    if count == 0 || i + 1 == |t| || t[i] != PERCENT then (Keep(t[i]), i + 1, used)
    else if t[i + 1] == PERCENT then (Keep(PERCENT), i + 2, used)
    else if used < count && IsSpecifier(t[i + 1]) then (Use(t[i + 1], used), i + 2, used + 1)
    else (Keep(t[i]), i + 1, used)
  }

  /** The pieces of the template from position `i` on. */
  function Pieces(t: Text, i: nat, used: nat, count: nat): seq<Piece>
    requires i <= |t|
    decreases |t| - i
  {
    if i == |t| then []
    else
      var (piece, next, gone) := Bite(t, i, used, count);
      [piece] + Pieces(t, next, gone, count)
  }

  function UsedBy(pieces: seq<Piece>): nat {
    if pieces == [] then 0 else (if pieces[0].Use? then 1 else 0) + UsedBy(pieces[1..])
  }

  /** The arguments used, in the order of the template. */
  function Uses(pieces: seq<Piece>): seq<nat> {
    if pieces == [] then [] else (if pieces[0].Use? then [pieces[0].argument] else []) + Uses(pieces[1..])
  }

  function Render(r: Renderer, arguments: seq<Value>, pieces: seq<Piece>): Text {
    if pieces == [] then []
    else
      (match pieces[0]
       case Keep(u) => [u]
       case Use(s, k) => if k < |arguments| then r.substitute(s, arguments[k]) else [])
      + Render(r, arguments, pieces[1..])
  }

  function Show(r: Renderer, v: Value): Text {
    if v.String? then v.text else r.inspect(v)
  }

  /** The arguments no specifier took, each after a space unless it comes first of all. */
  function Trailing(r: Renderer, values: seq<Value>, k: nat): Text
    requires k <= |values|
    decreases |values| - k
  {
    if k == |values| then []
    else (if k > 0 then [SPACE] else []) + Show(r, values[k]) + Trailing(r, values, k + 1)
  }

  lemma {:induction false} UsesFit(t: Text, i: nat, used: nat, count: nat)
    requires i <= |t| && used <= count
    ensures used + UsedBy(Pieces(t, i, used, count)) <= count
    decreases |t| - i
  {
    if i < |t| {
      var (piece, next, gone) := Bite(t, i, used, count);
      UsesFit(t, next, gone, count);
      assert Pieces(t, i, used, count)[1..] == Pieces(t, next, gone, count);
    }
  }

  function Formatted(r: Renderer, values: seq<Value>): Text {
    if values == [] || !values[0].String? then Trailing(r, values, 0)
    else
      var pieces := Pieces(values[0].text, 0, 0, |values| - 1);
      UsesFit(values[0].text, 0, 0, |values| - 1);
      Render(r, values[1..], pieces) + Trailing(r, values, 1 + UsedBy(pieces))
  }

  /** Every argument is used exactly once and in order: the specifiers take the first ones, one each
      from the left, and `Trailing` goes on with the next. */
  lemma {:induction false} ArgumentsInOrder(t: Text, i: nat, used: nat, count: nat)
    requires i <= |t| && used <= count
    ensures var uses := Uses(Pieces(t, i, used, count));
            |uses| == UsedBy(Pieces(t, i, used, count)) && forall k :: 0 <= k < |uses| ==> uses[k] == used + k
    decreases |t| - i
  {
    if i < |t| {
      var (piece, next, gone) := Bite(t, i, used, count);
      ArgumentsInOrder(t, next, gone, count);
      assert Pieces(t, i, used, count)[1..] == Pieces(t, next, gone, count);
    }
  }

  // ---------- what the rendering is, on strings ----------

  /** The rendering of a template, or of what is left of one, when `used` of `count` arguments are gone. */
  function Rendering(r: Renderer, arguments: seq<Value>, t: Text, used: nat, count: nat): Text {
    Render(r, arguments, Pieces(t, 0, used, count))
  }

  lemma {:induction false} PiecesOfSuffix(t: Text, i: nat, n: nat, used: nat, count: nat)
    requires 0 < n && i + n <= |t|
    ensures Pieces(t[i..], n, used, count) == Pieces(t[i + n..], 0, used, count)
    decreases |t| - i - n, 1
  {
    PiecesOfRest(t[i..], n, used, count);
    assert t[i..][n..] == t[i + n..];
  }

  /** What comes of a template from some position on depends only on its text from there on. */
  lemma {:induction false} PiecesOfRest(t: Text, i: nat, used: nat, count: nat)
    requires i <= |t|
    ensures Pieces(t, i, used, count) == Pieces(t[i..], 0, used, count)
    decreases |t| - i, 0
  {
    if i < |t| {
      var (piece, next, gone) := Bite(t, i, used, count);
      var n := next - i;
      assert Bite(t[i..], 0, used, count) == (piece, n, gone);
      PiecesOfRest(t, next, gone, count);
      PiecesOfSuffix(t, i, n, gone, count);
    }
  }

  lemma FirstPiece(r: Renderer, arguments: seq<Value>, t: Text, used: nat, count: nat)
    requires t != []
    ensures var (piece, next, gone) := Bite(t, 0, used, count);
            Rendering(r, arguments, t, used, count)
            == (match piece
                case Keep(u) => [u]
                case Use(s, k) => if k < |arguments| then r.substitute(s, arguments[k]) else [])
               + Rendering(r, arguments, t[next..], gone, count)
  {
    var (piece, next, gone) := Bite(t, 0, used, count);
    PiecesOfRest(t, next, gone, count);
    assert Pieces(t, 0, used, count)[1..] == Pieces(t, next, gone, count);
  }

  /** Text without a percent sign is kept, wherever it stands; so is any text when there are no arguments. */
  lemma {:induction false} PlainTextIsKept(
    r: Renderer, arguments: seq<Value>, plain: Text, rest: Text, used: nat, count: nat)
    requires count == 0 || forall i :: 0 <= i < |plain| ==> plain[i] != 37
    ensures Rendering(r, arguments, plain + rest, used, count) == plain + Rendering(r, arguments, rest, used, count)
  {
    if plain == [] {
      assert plain + rest == rest;
    } else {
      FirstPiece(r, arguments, plain + rest, used, count);
      assert (plain + rest)[1..] == plain[1..] + rest;
      PlainTextIsKept(r, arguments, plain[1..], rest, used, count);
    }
  }

  lemma PlainAlone(r: Renderer, arguments: seq<Value>, plain: Text, used: nat, count: nat)
    requires count == 0 || forall i :: 0 <= i < |plain| ==> plain[i] != 37
    ensures Rendering(r, arguments, plain, used, count) == plain
  {
    PlainTextIsKept(r, arguments, plain, [], used, count);
    assert plain + [] == plain;
  }

  /** With arguments, a percent sign and the unit after it are one percent sign if that is another one,
      the next argument as the letters s d i f j o O c show it if there is one left, and otherwise a
      percent sign that is kept; so is a last one. */
  lemma PercentMeans(r: Renderer, arguments: seq<Value>, letter: Unit, rest: Text, used: nat)
    requires arguments != [] && used <= |arguments|
    ensures Rendering(r, arguments, [37, letter] + rest, used, |arguments|) ==
            if letter == 37 then [37] + Rendering(r, arguments, rest, used, |arguments|)
            else if letter in {115, 100, 105, 102, 106, 111, 79, 99} && used < |arguments| then
              r.substitute(letter, arguments[used]) + Rendering(r, arguments, rest, used + 1, |arguments|)
            else [37] + Rendering(r, arguments, [letter] + rest, used, |arguments|)
    ensures Rendering(r, arguments, [37], used, |arguments|) == [37]
  {
    var t := [37, letter] + rest;
    FirstPiece(r, arguments, t, used, |arguments|);
    assert t[1..] == [letter] + rest && t[2..] == rest;
    FirstPiece(r, arguments, [37], used, |arguments|);
  }

  lemma {:induction false} NothingIsUsed(t: Text, i: nat, used: nat, count: nat)
    requires i <= |t| && (count == 0 || forall k :: 0 <= k < |t| ==> t[k] != 37)
    ensures UsedBy(Pieces(t, i, used, count)) == 0
    decreases |t| - i
  {
    if i < |t| {
      NothingIsUsed(t, i + 1, used, count);
      assert Pieces(t, i, used, count)[1..] == Pieces(t, i + 1, used, count);
    }
  }

  /** A template on its own, or one without a percent sign, is kept. */
  lemma PlainTemplate(r: Renderer, values: seq<Value>)
    requires values != [] && values[0].String?
    requires |values| == 1 || forall i :: 0 <= i < |values[0].text| ==> values[0].text[i] != 37
    ensures Formatted(r, values) == values[0].text + Trailing(r, values, 1)
  {
    var t := values[0].text;
    PlainAlone(r, values[1..], t, 0, |values| - 1);
    NothingIsUsed(t, 0, 0, |values| - 1);
  }

  lemma {:induction false} OneMoreArgument(t: Text, i: nat, used: nat, count: nat)
    requires i <= |t| && 0 < count && used + UsedBy(Pieces(t, i, used, count)) < count
    ensures Pieces(t, i, used, count + 1) == Pieces(t, i, used, count)
    decreases |t| - i
  {
    if i < |t| {
      var (piece, next, gone) := Bite(t, i, used, count);
      assert Pieces(t, i, used, count)[1..] == Pieces(t, next, gone, count);
      OneMoreArgument(t, next, gone, count);
    }
  }

  lemma {:induction false} TrailingMore(r: Renderer, values: seq<Value>, v: Value, k: nat)
    requires k <= |values| && values != []
    ensures Trailing(r, values + [v], k)
            == Trailing(r, values, k) + [32] + (if v.String? then v.text else r.inspect(v))
    decreases |values| - k
  {
    if k < |values| {
      TrailingMore(r, values, v, k + 1);
      assert (values + [v])[k] == values[k];
    } else {
      assert Trailing(r, values + [v], k + 1) == [];
    }
  }

  lemma {:induction false} RenderMore(r: Renderer, arguments: seq<Value>, v: Value, pieces: seq<Piece>)
    requires forall i :: 0 <= i < |pieces| && pieces[i].Use? ==> pieces[i].argument < |arguments|
    ensures Render(r, arguments + [v], pieces) == Render(r, arguments, pieces)
  {
    if pieces != [] {
      RenderMore(r, arguments, v, pieces[1..]);
    }
  }

  lemma {:induction false} UsesExist(t: Text, i: nat, used: nat, count: nat, k: nat)
    requires i <= |t| && used <= count && k < |Pieces(t, i, used, count)|
    requires Pieces(t, i, used, count)[k].Use?
    ensures Pieces(t, i, used, count)[k].argument < count
    decreases |t| - i
  {
    var (piece, next, gone) := Bite(t, i, used, count);
    if k > 0 {
      UsesExist(t, next, gone, count, k - 1);
    }
  }

  lemma LeftOverIsNotUsed(r: Renderer, arguments: seq<Value>, v: Value, t: Text)
    requires UsedBy(Pieces(t, 0, 0, |arguments|)) < |arguments|
    ensures Pieces(t, 0, 0, |arguments| + 1) == Pieces(t, 0, 0, |arguments|)
    ensures Rendering(r, arguments + [v], t, 0, |arguments| + 1) == Rendering(r, arguments, t, 0, |arguments|)
  {
    OneMoreArgument(t, 0, 0, |arguments|);
    forall i | 0 <= i < |Pieces(t, 0, 0, |arguments|)| && Pieces(t, 0, 0, |arguments|)[i].Use?
      ensures Pieces(t, 0, 0, |arguments|)[i].argument < |arguments|
    {
      UsesExist(t, 0, 0, |arguments|, i);
    }
    RenderMore(r, arguments, v, Pieces(t, 0, 0, |arguments|));
  }

  lemma FormattedTemplate(r: Renderer, values: seq<Value>, body: Text, used: nat)
    requires values != [] && values[0].String? && used < |values|
    requires body == Rendering(r, values[1..], values[0].text, 0, |values| - 1)
    requires used == UsedBy(Pieces(values[0].text, 0, 0, |values| - 1))
    ensures Formatted(r, values) == body + Trailing(r, values, 1 + used)
  {
  }

  lemma TemplateLeavesOver(r: Renderer, values: seq<Value>, v: Value) returns (body: Text, trailing: Text)
    requires values != [] && values[0].String?
    requires UsedBy(Pieces(values[0].text, 0, 0, |values| - 1)) < |values| - 1
    ensures Formatted(r, values) == body + trailing
    ensures Formatted(r, values + [v]) == body + (trailing + [32] + (if v.String? then v.text else r.inspect(v)))
  {
    var t := values[0].text;
    var used := UsedBy(Pieces(t, 0, 0, |values| - 1));
    body, trailing := Rendering(r, values[1..], t, 0, |values| - 1), Trailing(r, values, 1 + used);
    assert (values + [v])[1..] == values[1..] + [v];
    LeftOverIsNotUsed(r, values[1..], v, t);
    FormattedTemplate(r, values, body, used);
    FormattedTemplate(r, values + [v], body, used);
    TrailingMore(r, values, v, 1 + used);
  }

  lemma Append(a: Text, b: Text, c: Text)
    ensures a + (b + c) == (a + b) + c
  {
  }

  /** When a value is left over, or there is no template, one more is shown at the end after a space: a
      string as its text and anything else as its inspection. */
  lemma LeftOverIsShown(r: Renderer, values: seq<Value>, v: Value)
    requires values != []
    requires values[0].String? ==> UsedBy(Pieces(values[0].text, 0, 0, |values| - 1)) < |values| - 1
    ensures Formatted(r, values + [v]) == Formatted(r, values) + [32] + (if v.String? then v.text else r.inspect(v))
  {
    if values[0].String? {
      var body, trailing := TemplateLeavesOver(r, values, v);
      Append(body, trailing + [32], if v.String? then v.text else r.inspect(v));
      Append(body, trailing, [32]);
    } else {
      TrailingMore(r, values, v, 0);
    }
  }

  lemma OneSpecifierRendered(r: Renderer, before: Text, letter: Unit, after: Text, v: Value)
    requires forall i :: 0 <= i < |before| ==> before[i] != 37
    requires forall i :: 0 <= i < |after| ==> after[i] != 37
    ensures Rendering(r, [v], before + [37, letter] + after, 0, 1) ==
            if letter == 37 then before + [37] + after
            else if letter in {115, 100, 105, 102, 106, 111, 79, 99} then before + r.substitute(letter, v) + after
            else before + [37, letter] + after
  {
    Append(before, [37, letter], after);
    PlainTextIsKept(r, [v], before, [37, letter] + after, 0, 1);
    PercentMeans(r, [v], letter, after, 0);
    PlainAlone(r, [v], after, 0, 1);
    PlainAlone(r, [v], after, 1, 1);
    if letter == 37 {
      Append(before, [37], after);
    } else if letter in {115, 100, 105, 102, 106, 111, 79, 99} {
      Append(before, r.substitute(letter, v), after);
    } else {
      PlainTextIsKept(r, [v], [letter], after, 0, 1);
      Append([37], [letter], after);
      assert [37] + [letter] == [37, letter];
    }
  }

  lemma {:induction false} OneSpecifierUses(before: Text, letter: Unit, after: Text, i: nat)
    requires forall i :: 0 <= i < |before| ==> before[i] != 37
    requires forall i :: 0 <= i < |after| ==> after[i] != 37
    requires i <= |before|
    ensures UsedBy(Pieces(before + [37, letter] + after, i, 0, 1))
            == if letter in {115, 100, 105, 102, 106, 111, 79, 99} then 1 else 0
    decreases |before| - i
  {
    var t := before + [37, letter] + after;
    var (piece, next, gone) := Bite(t, i, 0, 1);
    assert Pieces(t, i, 0, 1)[1..] == Pieces(t, next, gone, 1);
    if i < |before| {
      OneSpecifierUses(before, letter, after, i + 1);
    } else {
      PiecesOfRest(t, next, gone, 1);
      assert t[next..] == if next == i + 2 then after else [letter] + after;
      NothingIsUsed(t[next..], 0, gone, 1);
    }
  }

  /** One specifier and one value: each letter takes it, `%%` and any other unit leave it over. */
  lemma OneSpecifier(r: Renderer, before: Text, letter: Unit, after: Text, v: Value)
    requires forall i :: 0 <= i < |before| ==> before[i] != 37
    requires forall i :: 0 <= i < |after| ==> after[i] != 37
    ensures var shown := if v.String? then v.text else r.inspect(v);
            Formatted(r, [String(before + [37, letter] + after), v]) ==
            if letter == 37 then before + [37] + after + [32] + shown
            else if letter in {115, 100, 105, 102, 106, 111, 79, 99} then before + r.substitute(letter, v) + after
            else before + [37, letter] + after + [32] + shown
  {
    var t := before + [37, letter] + after;
    var values, used := [String(t), v], UsedBy(Pieces(t, 0, 0, 1));
    var body := Rendering(r, [v], t, 0, 1);
    assert values[1..] == [v];
    OneSpecifierRendered(r, before, letter, after, v);
    OneSpecifierUses(before, letter, after, 0);
    FormattedTemplate(r, values, body, used);
    var shown := if v.String? then v.text else r.inspect(v);
    assert Trailing(r, values, 2) == [];
    if used == 0 {
      assert Trailing(r, values, 1) == [32] + shown;
      Append(body, [32], shown);
    } else {
      assert body + [] == body;
    }
  }

  // ---------- the loop ----------

  function Rest(r: Renderer, values: seq<Value>, i: nat, used: nat): Text
    requires values != [] && values[0].String? && i <= |values[0].text|
  {
    Render(r, values[1..], Pieces(values[0].text, i, used, |values| - 1))
  }

  function RestUses(values: seq<Value>, i: nat, used: nat): nat
    requires values != [] && values[0].String? && i <= |values[0].text|
  {
    UsedBy(Pieces(values[0].text, i, used, |values| - 1))
  }

  lemma RestStep(r: Renderer, values: seq<Value>, i: nat, used: nat)
    requires values != [] && values[0].String? && i < |values[0].text|
    ensures var (piece, next, gone) := Bite(values[0].text, i, used, |values| - 1);
            && Rest(r, values, i, used) ==
               (match piece
                case Keep(u) => [u]
                case Use(s, k) => if k < |values| - 1 then r.substitute(s, values[1..][k]) else [])
               + Rest(r, values, next, gone)
            && RestUses(values, i, used) == (if piece.Use? then 1 else 0) + RestUses(values, next, gone)
  {
    var (piece, next, gone) := Bite(values[0].text, i, used, |values| - 1);
    assert Pieces(values[0].text, i, used, |values| - 1)[1..] == Pieces(values[0].text, next, gone, |values| - 1);
  }

  /** Where the loop stops, the rest of the template is kept as it is. */
  lemma {:induction false} RestIsKept(r: Renderer, values: seq<Value>, i: nat, used: nat)
    requires values != [] && values[0].String? && i <= |values[0].text|
    requires |values| == 1 || i + 1 >= |values[0].text|
    ensures Rest(r, values, i, used) == values[0].text[i..]
    ensures RestUses(values, i, used) == 0
    decreases |values[0].text| - i
  {
    if i < |values[0].text| {
      RestStep(r, values, i, used);
      RestIsKept(r, values, i + 1, used);
    }
  }

  lemma KeepOne(done: Text, t: Text, segment: nat, cursor: nat, rest: Text)
    requires segment <= cursor < |t|
    ensures (done + t[segment..cursor]) + ([t[cursor]] + rest) == (done + t[segment..cursor + 1]) + rest
  {
    assert t[segment..cursor] + [t[cursor]] == t[segment..cursor + 1];
  }

  /** Starting a new, empty segment. */
  lemma FreshSegment(done: Text, t: Text, cursor: nat, rest: Text)
    requires cursor <= |t|
    ensures (done + t[cursor..cursor]) + rest == done + rest
  {
    assert done + [] == done;
  }

  /** The loop has dealt with the template up to `cursor`, and has appended it up to `segment`. */
  ghost predicate Underway(r: Renderer, values: seq<Value>, result: Text, segment: nat, cursor: nat, argument: nat) {
    && values != [] && values[0].String?
    && segment <= cursor <= |values[0].text| && 1 <= argument <= |values|
    && (result + values[0].text[segment..cursor]) + Rest(r, values, cursor, argument - 1) == Rest(r, values, 0, 0)
    && argument + RestUses(values, cursor, argument - 1) == 1 + RestUses(values, 0, 0)
  }

  lemma KeepStep(r: Renderer, values: seq<Value>, result: Text, segment: nat, cursor: nat, argument: nat)
    requires Underway(r, values, result, segment, cursor, argument) && cursor < |values[0].text|
    requires Bite(values[0].text, cursor, argument - 1, |values| - 1)
             == (Keep(values[0].text[cursor]), cursor + 1, argument - 1)
    ensures Underway(r, values, result, segment, cursor + 1, argument)
  {
    RestStep(r, values, cursor, argument - 1);
    KeepOne(result, values[0].text, segment, cursor, Rest(r, values, cursor + 1, argument - 1));
  }

  lemma PercentStep(r: Renderer, values: seq<Value>, result: Text, segment: nat, cursor: nat, argument: nat)
    requires Underway(r, values, result, segment, cursor, argument) && cursor + 1 < |values[0].text|
    requires values[0].text[cursor] == PERCENT
    requires Bite(values[0].text, cursor, argument - 1, |values| - 1) == (Keep(PERCENT), cursor + 2, argument - 1)
    ensures Underway(r, values, result + values[0].text[segment..cursor + 1], cursor + 2, cursor + 2, argument)
  {
    var t, rest := values[0].text, Rest(r, values, cursor + 2, argument - 1);
    RestStep(r, values, cursor, argument - 1);
    KeepOne(result, t, segment, cursor, rest);
    FreshSegment(result + t[segment..cursor + 1], t, cursor + 2, rest);
  }

  lemma RestUse(r: Renderer, values: seq<Value>, cursor: nat, argument: nat)
    requires values != [] && values[0].String? && cursor + 1 < |values[0].text| && 1 <= argument < |values|
    requires Bite(values[0].text, cursor, argument - 1, |values| - 1)
             == (Use(values[0].text[cursor + 1], argument - 1), cursor + 2, argument)
    ensures Rest(r, values, cursor, argument - 1)
            == r.substitute(values[0].text[cursor + 1], values[argument]) + Rest(r, values, cursor + 2, argument)
    ensures RestUses(values, cursor, argument - 1) == 1 + RestUses(values, cursor + 2, argument)
  {
    RestStep(r, values, cursor, argument - 1);
    assert values[1..][argument - 1] == values[argument];
  }

  lemma UseStep(r: Renderer, values: seq<Value>, result: Text, segment: nat, cursor: nat, argument: nat)
    requires Underway(r, values, result, segment, cursor, argument)
    requires cursor + 1 < |values[0].text| && argument < |values|
    requires Bite(values[0].text, cursor, argument - 1, |values| - 1)
             == (Use(values[0].text[cursor + 1], argument - 1), cursor + 2, argument)
    ensures var shown := r.substitute(values[0].text[cursor + 1], values[argument]);
            Underway(r, values, result + values[0].text[segment..cursor] + shown, cursor + 2, cursor + 2, argument + 1)
  {
    var t, rest := values[0].text, Rest(r, values, cursor + 2, argument);
    var before, shown := result + t[segment..cursor], r.substitute(t[cursor + 1], values[argument]);
    RestUse(r, values, cursor, argument);
    Append(before, shown, rest);
    FreshSegment(before + shown, t, cursor + 2, rest);
  }

  lemma Finish(r: Renderer, values: seq<Value>, result: Text, segment: nat, cursor: nat, argument: nat)
    requires Underway(r, values, result, segment, cursor, argument)
    requires |values| == 1 || cursor + 1 >= |values[0].text|
    ensures result + values[0].text[segment..] == Rest(r, values, 0, 0)
    ensures argument == 1 + RestUses(values, 0, 0)
  {
    var t := values[0].text;
    RestIsKept(r, values, cursor, argument - 1);
    assert t[segment..cursor] + t[cursor..] == t[segment..];
    Append(result, t[segment..cursor], t[cursor..]);
  }

  /** The template loop: segments of the template are appended whole, between the specifiers. */
  method FormatTemplate(r: Renderer, values: seq<Value>) returns (result: Text, argument: nat)
    requires values != [] && values[0].String?
    ensures result == Rest(r, values, 0, 0)
    ensures argument == 1 + RestUses(values, 0, 0) <= |values|
  {
    var template := values[0].text;
    result, argument := [], 1;
    var segment: nat, cursor: nat := 0, 0;
    FreshSegment([], template, 0, Rest(r, values, 0, 0));
    while |values| > 1 && cursor + 1 < |template|
      invariant Underway(r, values, result, segment, cursor, argument)
      decreases |template| - cursor
    {
      if template[cursor] != PERCENT {
        KeepStep(r, values, result, segment, cursor, argument);
        cursor := cursor + 1;
        continue;
      }
      var specifier := template[cursor + 1];
      if specifier == PERCENT {
        PercentStep(r, values, result, segment, cursor, argument);
        result := result + template[segment..cursor + 1];
      } else if argument < |values| && IsSpecifier(specifier) {
        UseStep(r, values, result, segment, cursor, argument);
        result := result + template[segment..cursor];
        result := result + r.substitute(specifier, values[argument]);
        argument := argument + 1;
      } else {
        KeepStep(r, values, result, segment, cursor, argument);
        cursor := cursor + 1;
        continue;
      }
      cursor := cursor + 2;
      segment := cursor;
    }
    Finish(r, values, result, segment, cursor, argument);
    result := result + template[segment..];
  }

  lemma TrailingStep(r: Renderer, values: seq<Value>, result: Text, k: nat)
    requires k < |values|
    ensures result + Trailing(r, values, k)
            == (result + (if k != 0 then [SPACE] else []) + Show(r, values[k])) + Trailing(r, values, k + 1)
  {
    var space := if k != 0 then [SPACE] else [];
    Append(result, space + Show(r, values[k]), Trailing(r, values, k + 1));
    Append(result, space, Show(r, values[k]));
  }

  method Format(r: Renderer, values: seq<Value>) returns (result: Text)
    ensures result == Formatted(r, values)
  {
    if |values| == 0 { return []; }
    result := [];
    var argument := 0;
    if values[0].String? {
      result, argument := FormatTemplate(r, values);
    }
    ghost var whole := result + Trailing(r, values, argument);
    while argument < |values|
      invariant argument <= |values|
      invariant result + Trailing(r, values, argument) == whole
    {
      TrailingStep(r, values, result, argument);
      result := result + if argument != 0 then [SPACE] else [];
      result := result + if values[argument].String? then values[argument].text else r.inspect(values[argument]);
      argument := argument + 1;
    }
    assert result + [] == result;
  }
}
