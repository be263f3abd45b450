/**
 Opening an archive (crates/ma-persist/src/reader.rs): the files under any number of prefixes,
 each once, grouped by partition and in key order.
 */
module Listing {
  import opened Types
  import Calendar
  import Keys

  ////////// Text order, as a computation

  predicate Precedes(a: string, b: string) {
    b != [] && (a == [] || a[0] < b[0] || (a[0] == b[0] && Precedes(a[1..], b[1..])))
  }

  lemma {:induction false} PrecedesIsTextOrder(a: string, b: string)
    ensures Precedes(a, b) <==> Keys.TextBefore(a, b)
  {
    if b != [] && a != [] && a[0] == b[0] {
      PrecedesIsTextOrder(a[1..], b[1..]);
      assert a == [a[0]] + a[1..] && b == [a[0]] + b[1..];
      if Keys.TextBefore(a[1..], b[1..]) {
        Keys.CommonPrefixIsKept([a[0]], a[1..], b[1..]);
      }
      if Keys.TextBefore(a, b) {
        var k :| 0 <= k <= |a| && k <= |b| && Keys.DiffersAt(a, b, k);
        assert a[1..][..k - 1] == a[..k][1..] && b[1..][..k - 1] == b[..k][1..];
        assert Keys.DiffersAt(a[1..], b[1..], k - 1);
      }
    } else if b != [] && (a == [] || a[0] < b[0]) {
      assert Keys.DiffersAt(a, b, 0);
    } else {
      forall k | 0 <= k <= |a| && k <= |b|
        ensures !Keys.DiffersAt(a, b, k)
      {
        Keys.PrefixesAgree(a, b, k);
      }
    }
  }

  lemma {:induction false} OneComesFirst(a: string, b: string)
    ensures a == b || Precedes(a, b) || Precedes(b, a)
  {
    if a != [] && b != [] && a[0] == b[0] {
      OneComesFirst(a[1..], b[1..]);
      assert a == [a[0]] + a[1..] && b == [b[0]] + b[1..];
    }
  }

  lemma {:induction false} OrderIsTransitive(a: string, b: string, c: string)
    requires Precedes(a, b) && Precedes(b, c)
    ensures Precedes(a, c)
  {
    if a != [] && a[0] == b[0] == c[0] {
      OrderIsTransitive(a[1..], b[1..], c[1..]);
    }
  }

  ////////// Partitions

  /** What comes before the last occurrence of `mark`. */
  function Before(key: string, mark: string): Option<string> {
    if |key| < |mark| then None
    else if key[|key| - |mark|..] == mark then Some(key[..|key| - |mark|])
    else if key == [] then None
    else Before(key[..|key| - 1], mark)
  }

  predicate Occurs(key: string, mark: string, i: int) {
    0 <= i <= |key| - |mark| && key[i..i + |mark|] == mark
  }

  lemma OccursAtTheEnd(key: string, mark: string)
    requires |mark| <= |key|
    ensures Occurs(key, mark, |key| - |mark|) <==> key[|key| - |mark|..] == mark
  {
    assert key[|key| - |mark|..|key|] == key[|key| - |mark|..];
  }

  lemma OccursInFront(key: string, mark: string)
    requires 0 < |mark| <= |key| && key[|key| - |mark|..] != mark
    ensures forall i :: Occurs(key, mark, i) <==> Occurs(key[..|key| - 1], mark, i)
  {
    OccursAtTheEnd(key, mark);
    forall i | 0 <= i < |key| - |mark| ensures Occurs(key, mark, i) <==> Occurs(key[..|key| - 1], mark, i) {
      assert key[..|key| - 1][i..i + |mark|] == key[i..i + |mark|];
    }
  }

  /** This is where the mark occurs last. */
  ghost predicate OccursLast(key: string, mark: string, i: int) {
    Occurs(key, mark, i) && forall j | Occurs(key, mark, j) :: j <= i
  }

  lemma {:induction false} NothingBeforeNoMark(key: string, mark: string, i: int)
    requires mark != [] && Before(key, mark).None?
    ensures !Occurs(key, mark, i)
  {
    if |mark| <= |key| {
      OccursInFront(key, mark);
      NothingBeforeNoMark(key[..|key| - 1], mark, i);
    }
  }

  lemma {:induction false} BeforeIsTheLast(key: string, mark: string)
    requires mark != [] && Before(key, mark).Some?
    ensures Before(key, mark).value <= key && OccursLast(key, mark, |Before(key, mark).value|)
  {
    OccursAtTheEnd(key, mark);
    if key[|key| - |mark|..] != mark {
      OccursInFront(key, mark);
      BeforeIsTheLast(key[..|key| - 1], mark);
    }
  }

  /** What comes before the mark: it ends where the mark occurs last, if anywhere. */
  lemma BeforeMeans(key: string, mark: string)
    requires mark != []
    ensures Before(key, mark).Some? <==> exists i :: Occurs(key, mark, i)
    ensures Before(key, mark).Some? ==>
              Before(key, mark).value <= key && OccursLast(key, mark, |Before(key, mark).value|)
  {
    if Before(key, mark).Some? {
      BeforeIsTheLast(key, mark);
    } else {
      forall i ensures !Occurs(key, mark, i) {
        NothingBeforeNoMark(key, mark, i);
      }
    }
  }

  /** Everything before a key's date, or the directory of a key without one. */
  function PartitionOf(key: string): string {
    var dated, slashed := Before(key, "/date="), Before(key, "/");
    if dated.Some? then dated.value else if slashed.Some? then slashed.value else ""
  }

  predicate IsParquet(key: string) {
    |key| >= |".parquet"| && key[|key| - |".parquet"|..] == ".parquet"
  }

  datatype Partition = Partition(name: string, keys: seq<string>)

  predicate Ascending(keys: seq<string>) {
    forall i, j | 0 <= i < j < |keys| :: Precedes(keys[i], keys[j])
  }

  /** An ordered set with one more member. */
  function Inserted(keys: seq<string>, key: string): seq<string> {
    if keys == [] || Precedes(key, keys[0]) then [key] + keys
    else if key == keys[0] then keys
    else [keys[0]] + Inserted(keys[1..], key)
  }

  lemma {:induction false} InsertedAscends(keys: seq<string>, key: string)
    requires Ascending(keys)
    ensures Ascending(Inserted(keys, key))
    ensures forall k :: k in Inserted(keys, key) <==> k in keys || k == key
  {
    if keys != [] && Precedes(key, keys[0]) {
      forall j | 0 < j < |keys|
        ensures Precedes(key, keys[j])
      {
        OrderIsTransitive(key, keys[0], keys[j]);
      }
    } else if keys != [] && key != keys[0] {
      InsertedAscends(keys[1..], key);
      OneComesFirst(key, keys[0]);
      var rest := Inserted(keys[1..], key);
      assert keys == [keys[0]] + keys[1..];
      forall j | 0 <= j < |rest|
        ensures Precedes(keys[0], rest[j])
      {
        assert rest[j] in rest;
      }
    }
  }

  /** A key filed under its partition, partitions kept in order. */
  function Filed(parts: seq<Partition>, key: string): seq<Partition> {
    var name := PartitionOf(key);
    if parts == [] || Precedes(name, parts[0].name) then [Partition(name, [key])] + parts
    else if name == parts[0].name then [Partition(name, Inserted(parts[0].keys, key))] + parts[1..]
    else [parts[0]] + Filed(parts[1..], key)
  }

  ghost predicate Has(parts: seq<Partition>, key: string) {
    exists i | 0 <= i < |parts| :: key in parts[i].keys
  }

  /** Partitions in name order, each holding keys of its own, in order, each once. */
  ghost predicate WellFiled(parts: seq<Partition>) {
    && (forall i, j | 0 <= i < j < |parts| :: Precedes(parts[i].name, parts[j].name))
    && forall i | 0 <= i < |parts| ::
         parts[i].keys != [] && Ascending(parts[i].keys) && forall k | k in parts[i].keys :: PartitionOf(k) == parts[i].name
  }

  lemma HasSplits(head: Partition, rest: seq<Partition>, key: string)
    ensures Has([head] + rest, key) <==> key in head.keys || Has(rest, key)
  {
    var all := [head] + rest;
    if Has(rest, key) {
      var i :| 0 <= i < |rest| && key in rest[i].keys;
      assert key in all[i + 1].keys;
    }
    if key in head.keys {
      assert key in all[0].keys;
    }
    if Has(all, key) && key !in head.keys {
      var i :| 0 <= i < |all| && key in all[i].keys;
      assert key in rest[i - 1].keys;
    }
  }

  lemma {:induction false} FiledNames(parts: seq<Partition>, key: string, j: nat)
    requires j < |Filed(parts, key)|
    ensures var p := Filed(parts, key)[j]; p.name == PartitionOf(key) || exists i | 0 <= i < |parts| :: parts[i].name == p.name
  {
    var name, filed := PartitionOf(key), Filed(parts, key);
    if parts == [] || Precedes(name, parts[0].name) {
      if j > 0 {
        assert filed[j] == parts[j - 1];
      }
    } else if name == parts[0].name {
      if j > 0 {
        assert filed[j] == parts[j];
      }
    } else if j == 0 {
      assert filed[0] == parts[0];
    } else {
      FiledNames(parts[1..], key, j - 1);
      assert filed[j] == Filed(parts[1..], key)[j - 1];
      if filed[j].name != name {
        var i :| 0 <= i < |parts[1..]| && parts[1..][i].name == filed[j].name;
        assert parts[i + 1].name == filed[j].name;
      }
    }
  }

  lemma {:induction false} FiledStaysOrdered(parts: seq<Partition>, key: string)
    requires WellFiled(parts)
    ensures WellFiled(Filed(parts, key))
  {
    var name, filed := PartitionOf(key), Filed(parts, key);
    if parts == [] || Precedes(name, parts[0].name) {
      forall j | 0 < j < |parts|
        ensures Precedes(name, parts[j].name)
      {
        OrderIsTransitive(name, parts[0].name, parts[j].name);
      }
    } else if name == parts[0].name {
      InsertedAscends(parts[0].keys, key);
    } else {
      OneComesFirst(name, parts[0].name);
      FiledStaysOrdered(parts[1..], key);
      forall j | 0 < j < |filed|
        ensures Precedes(parts[0].name, filed[j].name)
      {
        FiledNames(parts[1..], key, j - 1);
      }
    }
  }

  lemma {:induction false} FiledAddsTheKey(parts: seq<Partition>, key: string, k: string)
    requires WellFiled(parts)
    ensures Has(Filed(parts, key), k) <==> Has(parts, k) || k == key
  {
    var name := PartitionOf(key);
    if parts == [] || Precedes(name, parts[0].name) {
      HasSplits(Partition(name, [key]), parts, k);
    } else {
      var head, rest := parts[0], parts[1..];
      assert parts == [head] + rest;
      HasSplits(head, rest, k);
      if name == head.name {
        InsertedAscends(head.keys, key);
        HasSplits(Partition(name, Inserted(head.keys, key)), rest, k);
      } else {
        FiledAddsTheKey(rest, key, k);
        HasSplits(head, Filed(rest, key), k);
      }
    }
  }

  method FileAll(start: seq<Partition>, keys: seq<string>) returns (parts: seq<Partition>)
    requires WellFiled(start)
    ensures WellFiled(parts)
    ensures forall k :: Has(parts, k) <==> Has(start, k) || (k in keys && IsParquet(k))
  {
    parts := start;
    for i := 0 to |keys|
      invariant WellFiled(parts)
      invariant forall k :: Has(parts, k) <==> Has(start, k) || (k in keys[..i] && IsParquet(k))
    {
      assert keys[..i + 1] == keys[..i] + [keys[i]];
      if IsParquet(keys[i]) {
        FiledStaysOrdered(parts, keys[i]);
        forall k
          ensures Has(Filed(parts, keys[i]), k) <==> Has(parts, k) || k == keys[i]
        {
          FiledAddsTheKey(parts, keys[i], k);
        }
        parts := Filed(parts, keys[i]);
      }
    }
    assert keys[..|keys|] == keys;
  }

  /** Every file under any of the prefixes, once, on its partition's cursor and in key order; an error if a listing fails. */
  method OpenMany(listings: seq<Option<seq<string>>>) returns (parts: Option<seq<Partition>>)
    ensures parts.None? <==> exists i | 0 <= i < |listings| :: listings[i].None?
    ensures parts.Some? ==>
              && WellFiled(parts.value)
              && forall k :: Has(parts.value, k) <==>
                   IsParquet(k) && exists i | 0 <= i < |listings| :: listings[i].Some? && k in listings[i].value
  {
    var filed: seq<Partition> := [];
    for i := 0 to |listings|
      invariant forall j | 0 <= j < i :: listings[j].Some?
      invariant WellFiled(filed)
      invariant forall k :: Has(filed, k) <==> IsParquet(k) && exists j | 0 <= j < i :: listings[j].Some? && k in listings[j].value
    {
      if listings[i].None? {
        return None;
      }
      filed := FileAll(filed, listings[i].value);
    }
    parts := Some(filed);
  }

  /**
   A partition is everything before a key's last date mark; a key without one belongs to its
   directory, everything before its last slash.
   */
  lemma PartitionMeans(key: string)
    ensures var name := PartitionOf(key);
            if exists i :: Occurs(key, "/date=", i) then name <= key && OccursLast(key, "/date=", |name|)
            else if exists i :: Occurs(key, "/", i) then name <= key && OccursLast(key, "/", |name|)
            else name == ""
  {
    BeforeMeans(key, "/date=");
    BeforeMeans(key, "/");
  }

  ////////// The writer's keys

  /** No date mark ends inside this text: no equals sign in it follows an `e`. */
  predicate Markless(text: string) {
    forall i | 0 <= i < |text| && text[i] == '=' :: i > 0 && text[i - 1] != 'e'
  }

  lemma {:induction false} BeforeTheMark(head: string, tail: string)
    requires Markless(tail)
    ensures Before(head + "/date=" + tail, "/date=") == Some(head)
  {
    var key := head + "/date=" + tail;
    if tail == [] {
      assert key == head + "/date=";
      assert key[|key| - 6..] == "/date=" && key[..|key| - 6] == head;
    } else {
      var n := |tail| - 1;
      BeforeTheMark(head, tail[..n]);
      assert key[..|key| - 1] == head + "/date=" + tail[..n];
      var end := key[|key| - 6..];
      assert end[5] == tail[n];
      assert tail[n] == '=' ==> end[4] == tail[n - 1];
      assert "/date="[5] == '=' && "/date="[4] == 'e';
    }
  }

  lemma DigitsAreMarkless(text: string)
    requires Keys.Parsed(text).Some?
    ensures forall i | 0 <= i < |text| :: text[i] != '='
  {
    Keys.ParsedIsDigits(text);
  }

  /** Whatever the date, hour and part read, a key's partition is what comes before them. */
  lemma PartitionOfParts(head: string, date: string, hour: string, part: string)
    requires forall i | 0 <= i < |date| :: date[i] != '='
    requires forall i | 0 <= i < |hour| :: hour[i] != '='
    requires forall i | 0 <= i < |part| :: part[i] != '='
    ensures PartitionOf(((head + "/date=") + (date + ("/hour=" + (hour + "/")))) + ("part-" + (part + ".parquet"))) == head
  {
    var mid, file := date + ("/hour=" + (hour + "/")), "part-" + (part + ".parquet");
    TailIsMarkless(date, hour, part);
    BeforeTheMark(head, mid + file);
    assert ((head + "/date=") + mid) + file == head + "/date=" + (mid + file);
  }

  lemma NumbersHaveNoMark(n: nat, width: nat)
    ensures forall i | 0 <= i < |Keys.Pad(n, width)| :: Keys.Pad(n, width)[i] != '='
  {
    Keys.PadParses(n, width);
    DigitsAreMarkless(Keys.Pad(n, width));
  }

  /** Files the writer makes for one symbol are one partition to the reader, whatever their hour and part. */
  lemma WriterKeysShareAPartition(prefix: string, partition: string, seconds: int, part: nat)
    ensures PartitionOf(Keys.KeyFor(Keys.DirFor(prefix, partition, seconds), part)) == prefix + "/symbol=" + partition
  {
    var (date, hour) := Keys.DateHour(seconds);
    DateHasNoMark(seconds);
    NumbersHaveNoMark(hour, 2);
    NumbersHaveNoMark(part, 5);
    PartitionOfParts(prefix + "/symbol=" + partition, date, Keys.Pad(hour, 2), Keys.Pad(part, 5));
    assert prefix + "/symbol=" + partition + "/date=" == (prefix + "/symbol=" + partition) + "/date=";
  }

  lemma DateHasNoMark(seconds: int)
    ensures var date := Keys.DateHour(seconds).0; forall i | 0 <= i < |date| :: date[i] != '='
  {
    var d := Calendar.CivilFromDays(Keys.Since1970(seconds) / Keys.DAY);
    Keys.PadParses(Keys.NonNegative(d.year), 4);
    Keys.PadParses(Keys.NonNegative(d.month), 2);
    Keys.PadParses(Keys.NonNegative(d.day), 2);
    DigitsAreMarkless(Keys.Pad(Keys.NonNegative(d.year), 4));
    DigitsAreMarkless(Keys.Pad(Keys.NonNegative(d.month), 2));
    DigitsAreMarkless(Keys.Pad(Keys.NonNegative(d.day), 2));
  }

  lemma TailIsMarkless(date: string, hour: string, part: string)
    requires forall i | 0 <= i < |date| :: date[i] != '='
    requires forall i | 0 <= i < |hour| :: hour[i] != '='
    requires forall i | 0 <= i < |part| :: part[i] != '='
    ensures Markless((date + ("/hour=" + (hour + "/"))) + ("part-" + (part + ".parquet")))
  {
    var tail := (date + ("/hour=" + (hour + "/"))) + ("part-" + (part + ".parquet"));
    forall i | 0 <= i < |tail|
      ensures tail[i] == '=' ==> i == |date| + 5
    {
      var j, k := i - |date| - 6, i - |date| - 7 - |hour| - 5;
      if 0 <= j < |hour| {
        assert tail[i] == hour[j];
      } else if 0 <= k < |part| {
        assert tail[i] == part[k];
      }
    }
    assert tail[|date| + 4] == "/hour="[4];
  }
}
