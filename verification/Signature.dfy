/** The two hand-written splitters of a signature's argument list: `get_marshalling_list`, which
    picks a marshaller per argument, and `typesFromString`, which lists the argument types for a
    queued connection. */
module Signature {
  import opened Text

  const BUFFER_SIZE: nat := 80

  /** The text after the first `c`, or nothing. */
  function DropThrough(s: string, c: char): string {
    if s == [] then [] else if s[0] == c then s[1..] else DropThrough(s[1..], c)
  }

  /** The text before the first `c`, or all of it. */
  function TakeUntil(s: string, c: char): string {
    s[..Position(s, c)]
  }

  /** It ends at the first `c` or at the end. */
  lemma TakeUntilStops(s: string, c: char)
    ensures var n := |TakeUntil(s, c)|;
            (n < |s| ==> s[n] == c) && forall k :: 0 <= k < n ==> s[k] != c
  {
    PositionIsFirst(s, c);
  }

  /** The text between the parentheses of a normalized signature. */
  function ArgText(signature: string): string {
    TakeUntil(DropThrough(signature, '('), ')')
  }

  /** The first item of a comma separated list, and what follows its comma. */
  function Item(args: string): string {
    TakeUntil(args, ',')
  }

  function Rest(args: string): (r: string)
    ensures args != [] ==> |r| < |args|
  {
    if |Item(args)| < |args| then args[|Item(args)| + 1..] else []
  }

  /** The items of a comma separated list; a final comma opens no further item. */
  function Split(args: string): seq<string>
    decreases |args|
  {
    if args == [] then [] else [Item(args)] + Split(Rest(args))
  }

  /** The list as `typesFromString` cuts it: a comma at the start of a piece is skipped, and a piece
      keeps the comma that ends it. */
  function Pieces(args: string): seq<string>
    decreases |args|
  {
    if args == [] then [] else
    var text := if args[0] == ',' then args[1..] else args;
    if text == [] then [] else [Piece(text)] + Pieces(Rest(text))
  }

  function Piece(text: string): (r: string)
    ensures r <= text
    ensures r + Rest(text) == text
  {
    if |Item(text)| < |text| then text[..|Item(text)| + 1] else text
  }

  ghost predicate NoEmptyItem(args: string) {
    forall i :: 0 <= i < |args| && args[i] == ',' ==> i > 0 && args[i - 1] != ','
  }

  function Concat(pieces: seq<string>): string {
    if pieces == [] then [] else pieces[0] + Concat(pieces[1..])
  }

  // ---------------------------------------------------------------- the loops

  /** `|TakeUntil|` is the first position that holds `c` or the end. */
  lemma TakeUntilIs(s: string, c: char, n: nat)
    requires n <= |s| && (n < |s| ==> s[n] == c) && forall k :: 0 <= k < n ==> s[k] != c
    ensures TakeUntil(s, c) == s[..n]
  {
    TakeUntilStops(s, c);
  }

  lemma TakeUntilSuffix(s: string, c: char, k: nat)
    requires k <= |TakeUntil(s, c)|
    ensures TakeUntil(s[k..], c) == TakeUntil(s, c)[k..]
  {
    var n := |TakeUntil(s, c)|;
    TakeUntilStops(s, c);
    TakeUntilIs(s[k..], c, n - k);
    assert s[k..][..n - k] == s[..n][k..];
  }

  /** The inner loop of `get_marshalling_list`: copies one item into the buffer. */
  method CopyItem(signature: string, start: nat, buffer: array<char>) returns (p: nat)
    requires start <= |signature|
    requires |Item(TakeUntil(signature[start..], ')'))| < buffer.Length
    modifies buffer
    ensures var item := Item(TakeUntil(signature[start..], ')'));
            p == start + |item| <= |signature| && buffer[..|item|] == item
  {
    ghost var item := Item(TakeUntil(signature[start..], ')'));
    p := start;
    while p < |signature| && signature[p] != ',' && signature[p] != ')'
      invariant start <= p <= |signature| && p - start <= |item|
      invariant forall k :: 0 <= k < p - start ==> buffer[k] == item[k]
    {
      ItemAt(signature, start, p);
      buffer[p - start] := signature[p];
      p := p + 1;
    }
    ItemAt(signature, start, p);
  }

  /** The item of the list starting at `start` ends at the first comma, parenthesis or the end. */
  lemma ItemAt(signature: string, start: nat, p: nat)
    requires start <= p <= |signature| && p - start <= |Item(TakeUntil(signature[start..], ')'))|
    ensures var item := Item(TakeUntil(signature[start..], ')'));
            && (p - start < |item| <==> p < |signature| && signature[p] != ',' && signature[p] != ')')
            && (p - start < |item| ==> item[p - start] == signature[p])
  {
    var text, k := signature[start..], p - start;
    assert k < |text| ==> text[k] == signature[p];
    TakeUntilAt(text, ')', k);
    TakeUntilAt(TakeUntil(text, ')'), ',', k);
  }

  lemma TakeUntilAt(s: string, c: char, k: nat)
    requires k <= |TakeUntil(s, c)|
    ensures k < |TakeUntil(s, c)| <==> k < |s| && s[k] != c
    ensures k < |TakeUntil(s, c)| ==> TakeUntil(s, c)[k] == s[k]
  {
    TakeUntilStops(s, c);
  }

  /** `get_marshalling_list`, returning the type names it looks marshallers up for. The buffer of 80
      characters bounds the length of a name. */
  method MarshallingTypes(signature: string) returns (types: seq<string>)
    requires forall item :: item in Split(ArgText(signature)) ==> |item| < 80
    ensures types == Split(ArgText(signature))
  {
    types := [];
    var buffer := new char[BUFFER_SIZE];
    var p := SkipName(signature);
    ghost var all, left := Split(ArgText(signature)), ArgText(signature);
    while p < |signature| && signature[p] != ')'
      invariant 0 <= p <= |signature|
      invariant left == TakeUntil(signature[p..], ')')
      invariant types + Split(left) == all
      decreases |signature| - p
    {
      SplitStep(types, left, all);
      var start := p;
      p := CopyItem(signature, p, buffer);
      types := types + [buffer[..p - start]];
      ghost var end := p;
      if p < |signature| && signature[p] == ',' {
        p := p + 1;
      }
      AfterItem(signature, start, end, p);
      left := Rest(left);
    }
  }

  lemma PieceSlice(args: string, b: nat, p: nat)
    requires b <= |args| && p == b + |Piece(args[b..])|
    ensures args[b..p] == Piece(args[b..]) && args[p..] == Rest(args[b..])
  {
    var text := args[b..];
    assert args[b..p] == text[..p - b];
    assert args[p..] == text[p - b..];
  }

  lemma Reassociate(a: seq<string>, x: string, b: seq<string>)
    ensures a + ([x] + b) == (a + [x]) + b && x in a + ([x] + b)
  {
    assert (a + ([x] + b))[|a|] == x;
  }

  lemma SplitStep(types: seq<string>, left: string, all: seq<string>)
    requires left != [] && types + Split(left) == all
    ensures (types + [Item(left)]) + Split(Rest(left)) == all
    ensures Item(left) in all
  {
    var item, rest := Item(left), Split(Rest(left));
    assert Split(left) == [item] + rest;
    Reassociate(types, item, rest);
  }

  lemma PiecesStep(types: seq<string>, left: string, text: string, all: seq<string>)
    requires left != [] && types + Pieces(left) == all
    requires text == if left[0] == ',' then left[1..] else left
    ensures text == [] ==> types == all
    ensures text != [] ==> (types + [Piece(text)]) + Pieces(Rest(text)) == all
  {
    if text != [] {
      var piece, rest := Piece(text), Pieces(Rest(text));
      assert Pieces(left) == [piece] + rest;
      Reassociate(types, piece, rest);
    } else {
      assert types + [] == types;
    }
  }

  method SkipName(signature: string) returns (p: nat)
    ensures p <= |signature| && signature[p..] == DropThrough(signature, '(')
  {
    p := 0;
    while p < |signature| && signature[p] != '('
      invariant 0 <= p <= |signature|
      invariant DropThrough(signature[p..], '(') == DropThrough(signature, '(')
    {
      assert signature[p..][1..] == signature[p + 1..];
      p := p + 1;
    }
    if p < |signature| {
      assert signature[p..][1..] == signature[p + 1..];
      p := p + 1;
    }
  }

  /** Past an item and the comma behind it lies the rest of the list. */
  lemma AfterItem(signature: string, start: nat, end: nat, p: nat)
    requires start <= end <= p <= |signature| && end - start == |Item(TakeUntil(signature[start..], ')'))|
    requires p == if end < |signature| && signature[end] == ',' then end + 1 else end
    ensures TakeUntil(signature[p..], ')') == Rest(TakeUntil(signature[start..], ')'))
  {
    var text, n := signature[start..], end - start;
    RestOfText(text);
    if end < |signature| {
      assert text[n] == signature[end];
    }
    SliceOfSlice(signature, start, p - start);
    if p == end {
      assert TakeUntil(text[n..], ')') == [];
    }
  }

  lemma RestOfText(text: string)
    ensures var left := TakeUntil(text, ')');
            var n := |Item(left)|;
            && n <= |left| <= |text|
            && (n < |left| ==> text[n] == ',' && TakeUntil(text[n + 1..], ')') == Rest(left))
            && (n == |left| ==> Rest(left) == [] && (n < |text| ==> text[n] == ')'))
  {
    var left := TakeUntil(text, ')');
    var n := |Item(left)|;
    if n < |left| {
      TakeUntilSuffix(text, ')', n + 1);
      assert left[n] == text[n];
    }
    TakeUntilStops(text, ')');
    TakeUntilStops(left, ',');
  }

  lemma SliceOfSlice(s: string, a: nat, b: nat)
    requires a + b <= |s|
    ensures s[a..][b..] == s[a + b..]
  {
  }

  /** The inner loop of `typesFromString`: one piece, through its comma. */
  method ScanPiece(args: string, b: nat) returns (p: nat)
    requires b <= |args|
    ensures p == b + |Piece(args[b..])| <= |args|
  {
    ghost var text := args[b..];
    TakeUntilStops(text, ',');
    p := b;
    var more := true;
    while more && p != |args|
      invariant b <= p <= |args|
      invariant more ==> p - b <= |Item(text)|
      invariant !more ==> p - b == |Item(text)| + 1
      decreases |args| - p, more
    {
      assert args[p] == text[p - b];
      more := args[p] != ',';
      p := p + 1;
    }
  }

  /** `typesFromString` on the text between the parentheses. */
  method TypesFromString(args: string) returns (types: seq<string>)
    ensures types == Pieces(args)
  {
    types := [];
    var p := 0;
    ghost var left := args;
    while p != |args|
      invariant 0 <= p <= |args| && left == args[p..]
      invariant types + Pieces(left) == Pieces(args)
      decreases |args| - p
    {
      if args[p] == ',' {
        p := p + 1;
      }
      var b := p;
      ghost var text := args[b..];
      PiecesStep(types, left, text, Pieces(args));
      p := ScanPiece(args, b);
      PieceSlice(args, b, p);
      left := Rest(text);
      if p > b {
        types := types + [args[b..p]];
      }
    }
  }

  // ---------------------------------------------------------------- the splitters compared

  /** A list without empty items loses its first item and stays one, and conversely. */
  lemma NoEmptyItemRest(args: string)
    requires args != [] && args[0] != ','
    ensures NoEmptyItem(args) <==> NoEmptyItem(Rest(args))
  {
    var n, rest := |Item(args)|, Rest(args);
    TakeUntilStops(args, ',');
    if n < |args| {
      assert forall i :: 0 <= i < |rest| ==> rest[i] == args[n + 1 + i];
      if NoEmptyItem(rest) {
        forall i | 0 <= i < |args| && args[i] == ','
          ensures i > 0 && args[i - 1] != ','
        {
          if i > n {
            assert rest[i - n - 1] == ',';
            assert i > n + 1 ==> rest[i - n - 2] == args[i - 1];
          }
        }
      }
    }
  }

  /** Both loops produce the same number of types exactly for lists without empty items; otherwise
      `typesFromString` produces fewer. */
  lemma {:induction false} SameCountIffNoEmptyItem(args: string)
    ensures |Pieces(args)| <= |Split(args)|
    ensures |Pieces(args)| == |Split(args)| <==> NoEmptyItem(args)
    decreases |args|
  {
    if args != [] {
      if args[0] == ',' {
        var text := args[1..];
        assert Item(args) == [] && Rest(args) == text;
        if text != [] {
          SameCountIffNoEmptyItem(Rest(text));
          assert |Split(args)| == 1 + |Split(text)| == 2 + |Split(Rest(text))|;
        }
        assert !NoEmptyItem(args);
      } else {
        SameCountIffNoEmptyItem(Rest(args));
        NoEmptyItemRest(args);
      }
    }
  }

  /** For lists without empty items the pieces are the items with the commas between them. */
  lemma {:induction false} PiecesAreItems(args: string, i: nat)
    requires NoEmptyItem(args) && i < |Split(args)|
    ensures |Pieces(args)| == |Split(args)|
    ensures Pieces(args)[i] == Split(args)[i] + (if i + 1 < |Split(args)| || args[|args| - 1] == ',' then "," else "")
    decreases |args|
  {
    SameCountIffNoEmptyItem(args);
    var rest := Rest(args);
    NoEmptyItemRest(args);
    FirstPiece(args);
    assert Pieces(args) == [Piece(args)] + Pieces(rest);
    assert Split(args) == [Item(args)] + Split(rest);
    if i > 0 {
      PiecesAreItems(rest, i - 1);
      assert args[|args| - 1] == rest[|rest| - 1];
    }
  }

  /** The pieces concatenate back to the text exactly when no item is empty. */
  lemma {:induction false} PiecesConcatIffNoEmptyItem(args: string)
    ensures |Concat(Pieces(args))| <= |args|
    ensures Concat(Pieces(args)) == args <==> NoEmptyItem(args)
    decreases |args|
  {
    if args != [] {
      var text := if args[0] == ',' then args[1..] else args;
      if text != [] {
        var rest := Rest(text);
        PiecesConcatIffNoEmptyItem(rest);
        assert Pieces(args)[0] == Piece(text) && Pieces(args)[1..] == Pieces(rest);
        assert Concat(Pieces(args)) == Piece(text) + Concat(Pieces(rest));
        assert Piece(text) + rest == text;
        if args[0] != ',' {
          NoEmptyItemRest(args);
          SamePrefix(Piece(text), Concat(Pieces(rest)), rest);
        }
      }
    }
  }

  lemma SamePrefix(a: string, b: string, c: string)
    ensures a + b == a + c <==> b == c
  {
    if a + b == a + c {
      assert b == (a + b)[|a|..] == (a + c)[|a|..] == c;
    }
  }

  lemma FirstPiece(args: string)
    requires args != []
    ensures Piece(args) == Item(args) + (if |Item(args)| < |args| then "," else "")
    ensures Rest(args) == [] && |Item(args)| < |args| ==> args[|args| - 1] == ','
    ensures |Item(args)| == |args| ==> args[|args| - 1] != ','
  {
    var n := |Item(args)|;
    TakeUntilStops(args, ',');
    if n < |args| {
      assert args[..n + 1] == args[..n] + [args[n]];
    }
  }

  // ---------------------------------------------------------------- the split undone

  lemma {:induction false} DropThroughAfter(name: string, c: char, rest: string)
    requires c !in name
    ensures DropThrough(name + [c] + rest, c) == rest
  {
    var s := name + [c] + rest;
    if name != [] {
      assert s[1..] == name[1..] + [c] + rest;
      DropThroughAfter(name[1..], c, rest);
    }
  }

  /** The arguments are what stands between the first parenthesis and the one that closes it. */
  lemma ArgTextIs(name: string, args: string, rest: string)
    requires '(' !in name && ')' !in args
    ensures ArgText(name + "(" + args + ")" + rest) == args
  {
    var tail := args + ")" + rest;
    assert name + "(" + args + ")" + rest == name + ['('] + tail;
    DropThroughAfter(name, '(', tail);
    TakeUntilIs(tail, ')', |args|);
  }

  /** Items put together again, with a comma behind each but the last. */
  function Joined(items: seq<string>): string {
    if items == [] then [] else if |items| == 1 then items[0] else items[0] + "," + Joined(items[1..])
  }

  function FinalComma(args: string): string {
    if args != [] && args[|args| - 1] == ',' then "," else ""
  }

  /** No item has a comma. */
  lemma {:induction false} ItemsHaveNoComma(args: string, i: nat)
    requires i < |Split(args)|
    ensures ',' !in Split(args)[i]
    decreases |args|
  {
    TakeUntilStops(args, ',');
    if i > 0 {
      ItemsHaveNoComma(Rest(args), i - 1);
    }
  }

  lemma JoinedMore(item: string, items: seq<string>)
    requires items != []
    ensures Joined([item] + items) == item + "," + Joined(items)
  {
    assert ([item] + items)[1..] == items;
  }

  lemma CommaBehind(item: string, rest: string, joined: string)
    requires rest == joined + FinalComma(rest) && rest != []
    ensures FinalComma(item + "," + rest) == FinalComma(rest)
    ensures item + "," + rest == (item + "," + joined) + FinalComma(item + "," + rest)
  {
    var all := item + "," + rest;
    assert all[|all| - 1] == rest[|rest| - 1];
  }

  /** Joined, the items are the list again, up to a final comma. */
  lemma {:induction false} SplitJoins(args: string)
    ensures args == Joined(Split(args)) + FinalComma(args)
    decreases |args|
  {
    if args != [] {
      var item, rest := Item(args), Rest(args);
      FirstPiece(args);
      if rest == [] {
        assert Split(rest) == [] && Split(args) == [item];
        assert args == Piece(args);
      } else {
        SplitJoins(rest);
        assert args == item + "," + rest;
        JoinedMore(item, Split(rest));
        CommaBehind(item, rest, Joined(Split(rest)));
      }
    }
  }

  // ---------------------------------------------------------------- a slot reads what a signal supplies

  /** What `checkConnectArgs` accepts: the slot takes no arguments, the same ones, or fewer, the list
      being cut at a comma. */
  predicate Accepts(signalArgs: string, slotArgs: string) {
    slotArgs == [] ||
    (slotArgs <= signalArgs && (|slotArgs| == |signalArgs| || signalArgs[|slotArgs|] == ','))
  }

  /** The types of an accepted slot are the first types of the signal, so `DynamicSlot::call`, which
      reads one argument per type of the slot, reads only arguments that were supplied. */
  lemma {:induction false} SlotTypesArePrefix(signalArgs: string, slotArgs: string)
    requires Accepts(signalArgs, slotArgs)
    ensures Split(slotArgs) <= Split(signalArgs)
    decreases |slotArgs|
  {
    if slotArgs != [] {
      var n, item := |Item(slotArgs)|, Item(slotArgs);
      TakeUntilStops(slotArgs, ',');
      SameFirstItem(signalArgs, slotArgs);
      var a, b := Split(Rest(slotArgs)), Split(Rest(signalArgs));
      if n < |slotArgs| {
        SlotTypesArePrefix(Rest(signalArgs), Rest(slotArgs));
      }
      assert a <= b;
      assert Split(slotArgs) == [item] + a && Split(signalArgs) == [item] + b;
    }
  }

  lemma SameFirstItem(signalArgs: string, slotArgs: string)
    requires Accepts(signalArgs, slotArgs) && slotArgs != []
    ensures Item(signalArgs) == Item(slotArgs)
    ensures |Item(slotArgs)| < |slotArgs| ==> Accepts(Rest(signalArgs), Rest(slotArgs))
    ensures |Item(slotArgs)| == |slotArgs| ==> Rest(slotArgs) == []
  {
    var n := |Item(slotArgs)|;
    TakeUntilStops(slotArgs, ',');
    assert forall k :: 0 <= k < |slotArgs| ==> signalArgs[k] == slotArgs[k];
    TakeUntilIs(signalArgs, ',', n);
    assert signalArgs[..n] == slotArgs[..n];
    if n < |slotArgs| {
      assert Rest(signalArgs) == signalArgs[n + 1..] && Rest(slotArgs) == slotArgs[n + 1..];
    }
  }
}
