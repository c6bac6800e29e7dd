/**
 * The dependency string a plugin's `__deps` export points at: bytes up to a 0 terminator,
 * each byte read as the character with that code, fields separated by ';'.
 */
module DepsString {
  import opened Errors
  import opened Engine

  const DELIMITER: char := ';'

  /** Each byte as the character with the same code (Rust's `u8 as char`). */
  function Latin1(bs: seq<byte>): (s: string)
    ensures |s| == |bs|
    ensures forall k :: 0 <= k < |bs| ==> s[k] as int == bs[k] as int
  {
    seq(|bs|, k requires 0 <= k < |bs| => (bs[k] as int) as char)
  }

  /** One character of the read loop: a delimiter opens a new empty field, any other
      character extends the last one. */
  function AddChar(fields: seq<string>, c: char): (r: seq<string>)
    requires |fields| >= 1
  {
    if c == DELIMITER then fields + [""]
    else fields[..|fields| - 1] + [fields[|fields| - 1] + [c]]
  }

  /** The fields of `s` between delimiters, built character by character from the left. */
  function Split(s: string): (fields: seq<string>)
    ensures |fields| >= 1
  {
    if s == [] then [""]
    else AddChar(Split(s[..|s| - 1]), s[|s| - 1])
  }

  /** The fields written one after the other with a delimiter between neighbours. */
  function Join(fields: seq<string>): (r: string)
    requires |fields| >= 1
  {
    if |fields| == 1 then fields[0]
    else Join(fields[..|fields| - 1]) + [DELIMITER] + fields[|fields| - 1]
  }

  ghost predicate NoDelimiter(fields: seq<string>)
  {
    forall k :: 0 <= k < |fields| ==> DELIMITER !in fields[k]
  }

  /** No field of a split string contains the delimiter. */
  lemma {:induction false} SplitNoDelimiter(s: string)
    ensures NoDelimiter(Split(s))
  {
    if s != [] {
      SplitNoDelimiter(s[..|s| - 1]);
    }
  }

  /** Joining the fields gives back exactly the split string. */
  lemma {:induction false} JoinSplit(s: string)
    ensures Join(Split(s)) == s
  {
    if s != [] {
      var init := s[..|s| - 1];
      JoinSplit(init);
      JoinAddChar(Split(init), s[|s| - 1]);
      assert s == init + [s[|s| - 1]];
    }
  }

  /** Adding one character to the fields adds it to their joined text. */
  lemma JoinAddChar(fields: seq<string>, c: char)
    requires |fields| >= 1
    ensures Join(AddChar(fields, c)) == Join(fields) + [c]
  {
    var n := |fields|;
    if c == DELIMITER {
      var r := fields + [""];
      assert r[..n] == fields;
      assert Join(r) == Join(fields) + [DELIMITER] + "";
    } else if n == 1 {
      assert AddChar(fields, c) == [fields[0] + [c]];
    } else {
      var r := fields[..n - 1] + [fields[n - 1] + [c]];
      assert r[..n - 1] == fields[..n - 1];
      var j := Join(fields[..n - 1]);
      assert Join(r) == j + [DELIMITER] + (fields[n - 1] + [c]);
      assert Join(fields) == j + [DELIMITER] + fields[n - 1];
    }
  }

  /** Appending a character that is not the delimiter extends the last field. */
  lemma {:induction false} SplitAppendField(t: string, f: string)
    requires DELIMITER !in f
    ensures Split(t + [DELIMITER] + f) == Split(t) + [f]
  {
    if f == [] {
      var s := t + [DELIMITER] + f;
      assert s[..|s| - 1] == t && s[|s| - 1] == DELIMITER;
    } else {
      var f0 := f[..|f| - 1];
      var s := t + [DELIMITER] + f;
      assert s[..|s| - 1] == t + [DELIMITER] + f0;
      assert f0 + [f[|f| - 1]] == f;
      SplitAppendField(t, f0);
    }
  }

  /** Splitting the join of delimiter-free fields gives the same fields back. */
  lemma {:induction false} SplitJoin(fields: seq<string>)
    requires |fields| >= 1 && NoDelimiter(fields)
    ensures Split(Join(fields)) == fields
  {
    if |fields| == 1 {
      SplitNoDelimiterField(fields[0]);
    } else {
      var init := fields[..|fields| - 1];
      assert NoDelimiter(init) by {
        forall k | 0 <= k < |init| ensures DELIMITER !in init[k] { assert init[k] == fields[k]; }
      }
      SplitJoin(init);
      SplitAppendField(Join(init), fields[|fields| - 1]);
      assert init + [fields[|fields| - 1]] == fields;
    }
  }

  /** A string without delimiters is a single field. */
  lemma {:induction false} SplitNoDelimiterField(f: string)
    requires DELIMITER !in f
    ensures Split(f) == [f]
  {
    if f != [] {
      var f0 := f[..|f| - 1];
      SplitNoDelimiterField(f0);
      assert f0 + [f[|f| - 1]] == f;
    }
  }

  /** The first 0 byte at or after `address`; none when memory ends before one. */
  function TerminatorAt(memory: seq<byte>, address: nat): (r: Option<nat>)
    decreases |memory| - address
    ensures r.None? <==> forall j :: address <= j < |memory| ==> memory[j] != 0
    ensures r.Some? ==> address <= r.value < |memory| && memory[r.value] == 0
    ensures r.Some? ==> forall j :: address <= j < r.value ==> memory[j] != 0
  {
    if address >= |memory| then None
    else if memory[address] == 0 then Some(address)
    else TerminatorAt(memory, address + 1)
  }

  /** The declared dependencies stored at `address`: the terminated string split into
      fields, or a memory error when no terminator lies inside memory. */
  function DecodeDeps(memory: seq<byte>, address: nat): (r: Result<seq<string>>)
  {
    match TerminatorAt(memory, address)
    case None => Err(MemoryAccessError)
    case Some(k) => Ok(Split(Latin1(memory[address..k])))
  }

  /** Splitting one more byte: a delimiter opens a new field, any other character extends
      the last one. */
  lemma SplitNextByte(memory: seq<byte>, address: nat, ptr: nat)
    requires address <= ptr < |memory|
    ensures Split(Latin1(memory[address..ptr + 1])) ==
              AddChar(Split(Latin1(memory[address..ptr])), (memory[ptr] as int) as char)
  {
    var bs := memory[address..ptr + 1];
    assert bs[..|bs| - 1] == memory[address..ptr];
    var s := Latin1(bs);
    assert s[..|s| - 1] == Latin1(bs[..|bs| - 1]);
    assert s[|s| - 1] == (memory[ptr] as int) as char;
  }

  /** Decoding succeeds exactly when a terminator follows the address; its fields are
      delimiter-free, at least one, and join back to the bytes before the terminator. */
  lemma DecodeDepsFields(memory: seq<byte>, address: nat)
    ensures DecodeDeps(memory, address).Ok? <==> exists j :: address <= j < |memory| && memory[j] == 0
    ensures DecodeDeps(memory, address).Err? ==> DecodeDeps(memory, address).error == MemoryAccessError
    ensures DecodeDeps(memory, address).Ok? ==>
              var fields := DecodeDeps(memory, address).value;
              var k := TerminatorAt(memory, address).value;
              |fields| >= 1 && NoDelimiter(fields) && Join(fields) == Latin1(memory[address..k])
  {
    if TerminatorAt(memory, address).Some? {
      var k := TerminatorAt(memory, address).value;
      SplitNoDelimiter(Latin1(memory[address..k]));
      JoinSplit(Latin1(memory[address..k]));
    }
  }

  /** "a;b;c" splits into three fields and the empty string into one empty field. */
  lemma SplitExamples()
    ensures Split("a;b;c") == ["a", "b", "c"]
    ensures Split("") == [""]
  {
    assert "a;b;c" == "a;b" + [DELIMITER] + "c";
    assert "a;b" == "a" + [DELIMITER] + "b";
    SplitNoDelimiterField("a");
    SplitAppendField("a", "b");
    SplitAppendField("a;b", "c");
  }

  /** The bytes "plug2" and a terminator, as the example plugin plug4 stores them. */
  const PLUG4_DEPS: seq<byte> := [112, 108, 117, 103, 50, 0]

  /** The example plugin plug4 declares the single dependency plug2. */
  lemma DecodeDepsExample()
    ensures DecodeDeps(PLUG4_DEPS, 0) == Ok(["plug2"])
    ensures DecodeDeps(PLUG4_DEPS[..5], 0) == Err(MemoryAccessError)
  {
    assert TerminatorAt(PLUG4_DEPS, 0) == Some(5);
    assert Latin1(PLUG4_DEPS[0..5]) == "plug2";
    SplitNoDelimiterField("plug2");
    assert TerminatorAt(PLUG4_DEPS[..5], 0) == None;
  }
}
