/** Query parameters as Unicode scalar values: ill-formed UTF-8 is replaced by U+FFFD, and nothing is
    copied until something has to be replaced. */
module ScalarParams {
  import opened Common

  type Text = seq<Byte>

  /** What `U8_NEXT` reports at an offset: where the next code point begins, and whether this one is
      well-formed. */
  datatype CodePoint = CodePoint(end: nat, valid: bool)

  ghost predicate Progressive(f: (Text, nat) -> CodePoint) {
    forall t: Text, i: nat :: i < |t| ==> i < f(t, i).end <= |t|
  }

  /** Any segmentation into code points that moves forward within the text. */
  type Decoder = f: (Text, nat) -> CodePoint | Progressive(f) ghost witness (t: Text, i: nat) => CodePoint(i + 1, true)

  const REPLACEMENT: Text := [0xef, 0xbf, 0xbd]

  /** The naive definition: copy each well-formed code point, replace each other one. */
  function Scalars(decode: Decoder, text: Text, i: nat): Text
    requires i <= |text|
    decreases |text| - i
  {
    if i == |text| then []
    else
      var c := decode(text, i);
      (if c.valid then text[i..c.end] else REPLACEMENT) + Scalars(decode, text, c.end)
  }

  predicate AllValid(decode: Decoder, text: Text, i: nat)
    requires i <= |text|
    decreases |text| - i
  {
    i == |text| || (decode(text, i).valid && AllValid(decode, text, decode(text, i).end))
  }

  /** A text with nothing to replace is its own replacement. */
  lemma {:induction false} ValidIsUnchanged(decode: Decoder, text: Text, i: nat)
    requires i <= |text| && AllValid(decode, text, i)
    ensures Scalars(decode, text, i) == text[i..]
    decreases |text| - i
  {
    if i < |text| {
      var c := decode(text, i);
      ValidIsUnchanged(decode, text, c.end);
      assert text[i..] == text[i..c.end] + text[c.end..];
    }
  }

  /** The code points from `i` to `j` are all well-formed. */
  ghost predicate ValidUpTo(decode: Decoder, text: Text, i: nat, j: nat)
    requires i <= j <= |text|
    decreases j - i
  {
    i == j || (decode(text, i).valid && decode(text, i).end <= j && ValidUpTo(decode, text, decode(text, i).end, j))
  }

  /** Up to the first ill-formed code point the text is kept; that one becomes EF BF BD. */
  lemma {:induction false} FirstIsReplaced(decode: Decoder, text: Text, i: nat, j: nat)
    requires i <= j < |text| && ValidUpTo(decode, text, i, j) && !decode(text, j).valid
    ensures Scalars(decode, text, i) == text[i..j] + [0xef, 0xbf, 0xbd] + Scalars(decode, text, decode(text, j).end)
    decreases j - i
  {
    if i == j {
      assert text[i..j] + REPLACEMENT == REPLACEMENT;
    } else {
      var c := decode(text, i);
      FirstIsReplaced(decode, text, c.end, j);
      assert text[i..j] == text[i..c.end] + text[c.end..j];
    }
  }

  lemma Regroup(done: Text, text: Text, copied: nat, start: nat, end: nat, tail: Text)
    requires copied <= start <= end <= |text|
    ensures (done + text[copied..start]) + (text[start..end] + tail) == (done + text[copied..end]) + tail
    ensures (done + text[copied..start]) + (REPLACEMENT + tail)
            == ((done + text[copied..start] + REPLACEMENT) + text[end..end]) + tail
  {
    assert text[copied..start] + text[start..end] == text[copied..end];
  }

  /** The code's loop, which copies segments between replacements and returns nothing at all when
      there was none to make. */
  method ReplaceInvalid(decode: Decoder, text: Text) returns (result: Option<Text>)
    ensures result.None? <==> AllValid(decode, text, 0)
    ensures result.Some? ==> result.value == Scalars(decode, text, 0)
  {
    result := None;
    var offset: nat, copied: nat := 0, 0;
    ghost var done: Text := [];
    while offset < |text|
      invariant copied <= offset <= |text|
      invariant done == if result.Some? then result.value else []
      invariant (done + text[copied..offset]) + Scalars(decode, text, offset) == Scalars(decode, text, 0)
      invariant result.None? ==> copied == 0 && (AllValid(decode, text, 0) <==> AllValid(decode, text, offset))
      invariant result.Some? ==> !AllValid(decode, text, 0)
      decreases |text| - offset
    {
      var start := offset;
      var c := decode(text, offset);
      offset := c.end;
      Regroup(done, text, copied, start, offset, Scalars(decode, text, offset));
      if !c.valid {
        result := Some((if result.Some? then result.value else []) + text[copied..start] + REPLACEMENT);
        done := result.value;
        copied := offset;
      }
    }
    if result.Some? {
      assert text[copied..] == text[copied..offset];
      assert (done + text[copied..]) + [] == done + text[copied..];
      result := Some(result.value + text[copied..]);
    }
  }

  datatype Entry = Entry(key: Text, value: Text)

  function ScalarEntry(decode: Decoder, e: Entry): Entry {
    Entry(Scalars(decode, e.key, 0), Scalars(decode, e.value, 0))
  }

  function ScalarEntries(decode: Decoder, entries: seq<Entry>): seq<Entry> {
    seq(|entries|, i requires 0 <= i < |entries| => ScalarEntry(decode, entries[i]))
  }

  method CopyBefore(entries: seq<Entry>, n: nat) returns (copy: seq<Entry>)
    requires n <= |entries|
    ensures copy == entries[..n]
  {
    copy := [];
    for previous := 0 to n
      invariant copy == entries[..previous]
    {
      copy := copy + [entries[previous]];
    }
  }

  lemma Unchanged(decode: Decoder, text: Text)
    requires AllValid(decode, text, 0)
    ensures Scalars(decode, text, 0) == text
  {
    ValidIsUnchanged(decode, text, 0);
  }

  /** The list is copied only from the first entry that changes; the result is the naive
      definition mapped over every key and value. */
  method Normalize(decode: Decoder, parsed: seq<Entry>) returns (result: seq<Entry>)
    ensures result == ScalarEntries(decode, parsed)
  {
    var normalized: Option<seq<Entry>> := None;
    for index := 0 to |parsed|
      invariant (if normalized.Some? then normalized.value else parsed[..index])
                == ScalarEntries(decode, parsed)[..index]
    {
      var entry := parsed[index];
      var key := ReplaceInvalid(decode, entry.key);
      var value := ReplaceInvalid(decode, entry.value);
      if normalized.None? && (key.Some? || value.Some?) {
        var copy := CopyBefore(parsed, index);
        normalized := Some(copy);
      }
      if key.None? { Unchanged(decode, entry.key); }
      if value.None? { Unchanged(decode, entry.value); }
      var scalar := Entry(if key.Some? then key.value else entry.key,
                          if value.Some? then value.value else entry.value);
      assert scalar == ScalarEntries(decode, parsed)[index];
      if normalized.Some? {
        normalized := Some(normalized.value + [scalar]);
      }
    }
    assert ScalarEntries(decode, parsed)[..|parsed|] == ScalarEntries(decode, parsed) && parsed[..|parsed|] == parsed;
    return if normalized.Some? then normalized.value else parsed;
  }
}
