/**
 Surgical edits of a raw net0/ipconfig0 value (src/lib/guest-vpn.ts), a comma-separated list of
 key=value fields.  SetKey works on the raw text, as the code's regular expression does; its
 meaning is an update of the list of fields.
 */
module GuestVpn {
  import opened Wrappers
  import opened Text

  /** Leftmost position from i on where a field starts with `key=`. */
  function FindField(raw: string, key: string, i: nat): (at: Option<nat>)
    ensures at.Some? ==> i <= at.value && at.value + |key| + 1 <= |raw|
    decreases |raw| - i
  {
    if i + |key| + 1 > |raw| then None
    else if (i == 0 || raw[i - 1] == ',') && StartsWith(raw[i..], key + "=") then Some(i)
    else FindField(raw, key, i + 1)
  }

  /** Where the run of non-commas from i on ends. */
  function FieldEnd(raw: string, i: nat): (end: nat)
    requires i <= |raw|
    ensures i <= end <= |raw|
    decreases |raw| - i
  {
    if i == |raw| || raw[i] == ',' then i else FieldEnd(raw, i + 1)
  }

  function Field(key: string, value: string): string {
    key + "=" + value
  }

  /** The field at p replaced. */
  function ReplaceAt(raw: string, p: nat, field: string): string
    requires p <= |raw|
  {
    raw[..p] + field + raw[FieldEnd(raw, p)..]
  }

  function SetKey(raw: string, key: string, newValue: string): string {
    match FindField(raw, key, 0)
    case Some(p) => ReplaceAt(raw, p, Field(key, newValue))
    case None => raw + "," + Field(key, newValue)
  }

  function SetNet0Gateway(net0: string, gatewayIp: string): string { SetKey(net0, "gw", gatewayIp) }

  function SetNet0Ip(net0: string, ipCidr: string): string { SetKey(net0, "ip", ipCidr) }

  function SetIpconfig0Ip(ipconfig0: string, ipCidr: string): string { SetKey(ipconfig0, "ip", ipCidr) }

  // ---- The list of fields ----

  function Fields(raw: string): seq<string> {
    Split(raw, ',')
  }

  /** Index of the first field of that key; |fields| when there is none. */
  function IndexOfKey(fields: seq<string>, key: string): (i: nat)
    ensures i <= |fields|
    ensures i < |fields| ==> StartsWith(fields[i], key + "=")
    ensures forall j :: 0 <= j < i ==> !StartsWith(fields[j], key + "=")
  {
    if fields == [] || StartsWith(fields[0], key + "=") then 0 else 1 + IndexOfKey(fields[1..], key)
  }

  lemma {:induction false} IndexOfKeyIs(fields: seq<string>, key: string, i: nat)
    requires i <= |fields| && (i < |fields| ==> StartsWith(fields[i], key + "="))
    requires forall j :: 0 <= j < i ==> !StartsWith(fields[j], key + "=")
    ensures IndexOfKey(fields, key) == i
  {
    if i > 0 {
      IndexOfKeyIs(fields[1..], key, i - 1);
    }
  }

  /** The first field of the key replaced in place, or one appended. */
  function SetField(fields: seq<string>, key: string, newValue: string): seq<string> {
    var i := IndexOfKey(fields, key);
    if i < |fields| then fields[i := Field(key, newValue)] else fields + [Field(key, newValue)]
  }

  function GetKey(raw: string, key: string): Option<string> {
    var i := IndexOfKey(Fields(raw), key);
    if i < |Fields(raw)| then Some(Fields(raw)[i][|key| + 1..]) else None
  }

  predicate IsKey(key: string) {
    ',' !in key && '=' !in key
  }

  // ---- The text edit is the field edit ----

  lemma {:induction false} FieldEndIs(head: string, tail: string, i: nat)
    requires ',' !in head && i <= |head| && (tail == "" || tail[0] == ',')
    ensures FieldEnd(head + tail, i) == |head|
    decreases |head| - i
  {
    if i < |head| {
      assert (head + tail)[i] == head[i];
      FieldEndIs(head, tail, i + 1);
    }
  }

  /** Positions inside a field, and after it, of a search that starts in it. */
  lemma {:induction false} SearchLeavesTheField(head: string, tail: string, key: string, i: nat)
    requires ',' !in head && 0 < i <= |head| + 1
    ensures FindField(head + "," + tail, key, i) == FindField(head + "," + tail, key, |head| + 1)
    decreases |head| + 1 - i
  {
    if i < |head| + 1 {
      assert (head + "," + tail)[i - 1] == head[i - 1];
      SearchLeavesTheField(head, tail, key, i + 1);
      if i + |key| + 1 > |head + "," + tail| {
        assert FindField(head + "," + tail, key, |head| + 1) == None;
      }
    }
  }

  lemma {:induction false} SearchShifts(head: string, tail: string, key: string, j: nat)
    ensures FindField(head + "," + tail, key, |head| + 1 + j)
            == match FindField(tail, key, j) case None => None case Some(p) => Some(|head| + 1 + p)
    decreases |tail| - j
  {
    var raw := head + "," + tail;
    if j + |key| + 1 <= |tail| {
      assert raw[|head| + 1 + j..] == tail[j..];
      assert raw[|head| + j] == if j == 0 then ',' else tail[j - 1];
      SearchShifts(head, tail, key, j + 1);
    }
  }

  lemma {:induction false} NoMatchInside(raw: string, key: string, i: nat)
    requires ',' !in raw && i > 0
    ensures FindField(raw, key, i) == None
    decreases |raw| - i
  {
    if i + |key| + 1 <= |raw| {
      NoMatchInside(raw, key, i + 1);
    }
  }

  lemma SetInLastField(raw: string, key: string, newValue: string)
    requires ',' !in key && ',' !in raw
    ensures SetKey(raw, key, newValue) == Join(SetField([raw], key, newValue), ',')
  {
    var field := Field(key, newValue);
    if StartsWith(raw, key + "=") {
      assert raw[0..] == raw && raw + "" == raw;
      FieldEndIs(raw, "", 0);
      assert [raw][0 := field] == [field];
    } else {
      assert raw[0..] == raw;
      NoMatchInside(raw, key, 1);
      assert FindField(raw, key, 0) == None;
      assert [raw] + [field] == [raw, field] && [raw, field][1..] == [field];
    }
  }

  lemma SetInFirstField(head: string, rest: seq<string>, key: string, newValue: string)
    requires rest != [] && ',' !in head && StartsWith(head, key + "=")
    ensures SetKey(head + "," + Join(rest, ','), key, newValue) == Join(SetField([head] + rest, key, newValue), ',')
  {
    var raw := head + "," + Join(rest, ',');
    assert raw[0..] == raw && StartsWith(raw, key + "=");
    assert raw == head + ("," + Join(rest, ','));
    FieldEndIs(head, "," + Join(rest, ','), 0);
    assert raw[|head|..] == "," + Join(rest, ',');
    FirstFieldSet(head, rest, key, newValue);
  }

  lemma FirstFieldSet(head: string, rest: seq<string>, key: string, newValue: string)
    requires rest != [] && StartsWith(head, key + "=")
    ensures Join(SetField([head] + rest, key, newValue), ',') == Field(key, newValue) + "," + Join(rest, ',')
  {
    var field := Field(key, newValue);
    assert ([head] + rest)[0 := field] == [field] + rest;
    assert ([field] + rest)[1..] == rest;
  }

  lemma FindSkipsFirstField(head: string, tail: string, key: string)
    requires ',' !in key && ',' !in head && !StartsWith(head, key + "=")
    ensures FindField(head + "," + tail, key, 0)
            == match FindField(tail, key, 0) case None => None case Some(p) => Some(|head| + 1 + p)
  {
    var raw := head + "," + tail;
    HeadDoesNotMatch(head, tail, key);
    assert raw[0..] == raw;
    SearchLeavesTheField(head, tail, key, 1);
    SearchShifts(head, tail, key, 0);
  }

  lemma SetAfterFirstField(head: string, tail: string, key: string, newValue: string)
    requires ',' !in key && ',' !in head && !StartsWith(head, key + "=")
    ensures SetKey(head + "," + tail, key, newValue) == head + "," + SetKey(tail, key, newValue)
  {
    FindSkipsFirstField(head, tail, key);
    if FindField(tail, key, 0).Some? {
      ReplaceAfterFirstField(head, tail, FindField(tail, key, 0).value, Field(key, newValue));
    } else {
      AppendAfterFirstField(head, tail, Field(key, newValue));
    }
  }

  lemma AppendAfterFirstField(head: string, tail: string, field: string)
    ensures head + "," + tail + "," + field == head + "," + (tail + "," + field)
  {
  }

  lemma ReplaceAfterFirstField(head: string, tail: string, p: nat, field: string)
    requires p <= |tail|
    ensures ReplaceAt(head + "," + tail, |head| + 1 + p, field) == head + "," + ReplaceAt(tail, p, field)
  {
    FieldEndShifts(head, tail, p);
    Splice(head + ",", tail, p, FieldEnd(tail, p), field);
  }

  lemma Splice(before: string, text: string, from: nat, to: nat, middle: string)
    requires from <= |text| && to <= |text|
    ensures (before + text)[..|before| + from] + middle + (before + text)[|before| + to..]
            == before + (text[..from] + middle + text[to..])
  {
    assert (before + text)[..|before| + from] == before + text[..from];
    assert (before + text)[|before| + to..] == text[to..];
  }

  /** Replacing text up to the next comma replaces one field; everything else stays byte for byte. */
  lemma {:induction false} SetKeyEditsOneField(raw: string, key: string, newValue: string)
    requires ',' !in key
    ensures SetKey(raw, key, newValue) == Join(SetField(Fields(raw), key, newValue), ',')
    decreases |Fields(raw)|
  {
    JoinSplit(raw, ',');
    var fields := Fields(raw);
    var head := fields[0];
    if |fields| == 1 {
      assert fields == [raw];
      SetInLastField(raw, key, newValue);
    } else {
      var tail := Join(fields[1..], ',');
      assert raw == head + "," + tail && fields == [head] + fields[1..];
      assert NoneContains(fields[1..], ',');
      SplitJoin(fields[1..], ',');
      if StartsWith(head, key + "=") {
        SetInFirstField(head, fields[1..], key, newValue);
      } else {
        SetKeyEditsOneField(tail, key, newValue);
        SetAfterFirstField(head, tail, key, newValue);
        SetFieldTail(fields, key, newValue);
      }
    }
  }

  lemma HeadDoesNotMatch(head: string, tail: string, key: string)
    requires ',' !in key && !StartsWith(head, key + "=")
    ensures !StartsWith(head + "," + tail, key + "=")
  {
    var raw := head + "," + tail;
    var n := |key| + 1;
    if n <= |head| {
      assert raw[..n] == head[..n];
    } else {
      assert raw[|head|] == ',' && (key + "=")[|head|] != ',';
      assert n <= |raw| ==> raw[..n][|head|] == ',';
    }
  }

  lemma {:induction false} FieldEndShifts(head: string, tail: string, p: nat)
    requires p <= |tail|
    ensures FieldEnd(head + "," + tail, |head| + 1 + p) == |head| + 1 + FieldEnd(tail, p)
    decreases |tail| - p
  {
    if p < |tail| {
      assert (head + "," + tail)[|head| + 1 + p] == tail[p];
      FieldEndShifts(head, tail, p + 1);
    }
  }

  lemma SetFieldTail(fields: seq<string>, key: string, newValue: string)
    requires |fields| > 1 && !StartsWith(fields[0], key + "=")
    ensures SetField(fields, key, newValue) == [fields[0]] + SetField(fields[1..], key, newValue)
    ensures SetField(fields[1..], key, newValue) != []
    ensures Join(SetField(fields, key, newValue), ',')
            == fields[0] + "," + Join(SetField(fields[1..], key, newValue), ',')
  {
    var rest := SetField(fields[1..], key, newValue);
    assert fields == [fields[0]] + fields[1..];
    assert SetField(fields, key, newValue) == [fields[0]] + rest;
    assert ([fields[0]] + rest)[1..] == rest;
  }

  // ---- Laws ----

  /** The fields after an edit are the edited fields, as long as the value has no comma. */
  lemma FieldsAfterSet(raw: string, key: string, newValue: string)
    requires ',' !in key && ',' !in newValue
    ensures Fields(SetKey(raw, key, newValue)) == SetField(Fields(raw), key, newValue)
  {
    SetKeyEditsOneField(raw, key, newValue);
    JoinSplit(raw, ',');
    SplitJoin(SetField(Fields(raw), key, newValue), ',');
  }

  /** Another key never matches: `gw=` is not the start of a `gw6=` field. */
  lemma KeysDoNotOverlap(key: string, other: string, value: string)
    requires IsKey(key) && IsKey(other) && key != other
    ensures !StartsWith(Field(key, value), other + "=")
  {
    var field := Field(key, value);
    var n := |other| + 1;
    if |other| < |key| {
      assert field[|other|] == key[|other|] && field[..n][|other|] == field[|other|];
    } else if |other| > |key| {
      assert field[|key|] == '=' && (other + "=")[|key|] == other[|key|];
      assert n <= |field| ==> field[..n][|key|] == '=';
    } else {
      assert field[..n][..|key|] == key && (other + "=")[..|key|] == other;
    }
  }

  /** What was set is read back exactly when it holds no comma. */
  lemma GetReadsBackExactlyCommaFreeValues(raw: string, key: string, newValue: string)
    requires ',' !in key
    ensures GetKey(SetKey(raw, key, newValue), key) == Some(newValue) <==> ',' !in newValue
  {
    var field := Field(key, newValue);
    if ',' !in newValue {
      FieldsAfterSet(raw, key, newValue);
      var fields := SetField(Fields(raw), key, newValue);
      var i := IndexOfKey(Fields(raw), key);
      assert fields[i] == field && StartsWith(field, key + "=");
      IndexOfKeyIs(fields, key, i);
      assert field[|key| + 1..] == newValue;
    } else {
      var after := SetKey(raw, key, newValue);
      JoinSplit(after, ',');
      var i := IndexOfKey(Fields(after), key);
      if i < |Fields(after)| {
        assert ',' !in Fields(after)[i][|key| + 1..];
      }
    }
  }

  /** Every other key still reads what it read. */
  lemma OtherKeysUnchanged(raw: string, key: string, newValue: string, other: string)
    requires IsKey(key) && IsKey(other) && key != other && ',' !in newValue
    ensures GetKey(SetKey(raw, key, newValue), other) == GetKey(raw, other)
  {
    FieldsAfterSet(raw, key, newValue);
    IndexAfterSet(Fields(raw), key, newValue, other);
  }

  lemma FieldOf(field: string, key: string)
    requires StartsWith(field, key + "=")
    ensures field == Field(key, field[|key| + 1..])
  {
  }

  /** The last of two settings of a key wins. */
  lemma SecondSetWins(raw: string, key: string, first: string, second: string)
    requires ',' !in key && ',' !in first
    ensures SetKey(SetKey(raw, key, first), key, second) == SetKey(raw, key, second)
  {
    FieldsAfterSet(raw, key, first);
    var fields := Fields(raw);
    var once := SetField(fields, key, first);
    var i := IndexOfKey(fields, key);
    assert StartsWith(Field(key, first), key + "=");
    IndexOfKeyIs(once, key, i);
    assert SetField(once, key, second) == SetField(fields, key, second);
    SetKeyEditsOneField(SetKey(raw, key, first), key, second);
    SetKeyEditsOneField(raw, key, second);
  }

  lemma BothAppend(fields: seq<string>, key: string, value: string, other: string, otherValue: string)
    requires IsKey(key) && IsKey(other) && key != other
    requires IndexOfKey(fields, key) == |fields| && IndexOfKey(fields, other) == |fields|
    ensures SetField(SetField(fields, key, value), other, otherValue)
            == fields + [Field(key, value)] + [Field(other, otherValue)]
  {
    IndexAfterSet(fields, key, value, other);
  }

  lemma FieldsDiffer(key: string, value: string, other: string, otherValue: string)
    requires IsKey(key) && IsKey(other) && key != other
    ensures Field(key, value) != Field(other, otherValue)
  {
    KeysDoNotOverlap(key, other, value);
    assert StartsWith(Field(other, otherValue), other + "=");
  }

  lemma OneInPlace(fields: seq<string>, key: string, value: string, other: string, otherValue: string)
    requires IsKey(key) && IsKey(other) && key != other && IndexOfKey(fields, key) < |fields|
    ensures SetField(SetField(fields, key, value), other, otherValue)
            == SetField(SetField(fields, other, otherValue), key, value)
  {
    var a, b := SetField(fields, key, value), SetField(fields, other, otherValue);
    IndexAfterSet(fields, key, value, other);
    IndexAfterSet(fields, other, otherValue, key);
    var i, k := IndexOfKey(fields, key), IndexOfKey(fields, other);
    assert IndexOfKey(b, key) == i && a == fields[i := Field(key, value)];
    if k < |fields| {
      assert i != k by { FieldOf(fields[i], key); KeysDoNotOverlap(key, other, fields[i][|key| + 1..]); }
    }
  }

  /** On the fields: two keys commute exactly when one of them is there. */
  lemma FieldEditsCommuteExactlyWhen(fields: seq<string>, key: string, value: string, other: string, otherValue: string)
    requires IsKey(key) && IsKey(other) && key != other
    ensures SetField(SetField(fields, key, value), other, otherValue)
            == SetField(SetField(fields, other, otherValue), key, value)
            <==> IndexOfKey(fields, key) < |fields| || IndexOfKey(fields, other) < |fields|
  {
    if IndexOfKey(fields, key) < |fields| {
      OneInPlace(fields, key, value, other, otherValue);
    } else if IndexOfKey(fields, other) < |fields| {
      OneInPlace(fields, other, otherValue, key, value);
    } else {
      BothAppend(fields, key, value, other, otherValue);
      BothAppend(fields, other, otherValue, key, value);
      FieldsDiffer(key, value, other, otherValue);
      assert (fields + [Field(key, value)] + [Field(other, otherValue)])[|fields|] == Field(key, value);
      assert (fields + [Field(other, otherValue)] + [Field(key, value)])[|fields|] == Field(other, otherValue);
    }
  }

  lemma TwoEdits(raw: string, key: string, value: string, other: string, otherValue: string)
    requires ',' !in key && ',' !in other && ',' !in value && ',' !in otherValue
    ensures var after := SetKey(SetKey(raw, key, value), other, otherValue);
            Fields(after) == SetField(SetField(Fields(raw), key, value), other, otherValue)
                && Join(Fields(after), ',') == after
  {
    FieldsAfterSet(raw, key, value);
    FieldsAfterSet(SetKey(raw, key, value), other, otherValue);
    JoinSplit(SetKey(SetKey(raw, key, value), other, otherValue), ',');
  }

  /** Edits of two keys commute exactly when they do not both append. */
  lemma EditsCommuteExactlyWhen(raw: string, key: string, value: string, other: string, otherValue: string)
    requires IsKey(key) && IsKey(other) && key != other && ',' !in value && ',' !in otherValue
    ensures SetKey(SetKey(raw, key, value), other, otherValue) == SetKey(SetKey(raw, other, otherValue), key, value)
            <==> GetKey(raw, key).Some? || GetKey(raw, other).Some?
  {
    TwoEdits(raw, key, value, other, otherValue);
    TwoEdits(raw, other, otherValue, key, value);
    FieldEditsCommuteExactlyWhen(Fields(raw), key, value, other, otherValue);
  }

  // ---- The three edits in use ----

  /**
   A gateway change and an address change of one net0 value: each is read back, no other field notices, and
   the order matters only if both append.
   */
  lemma GatewayAndAddressEdits(net0: string, gatewayIp: string, ipCidr: string)
    requires ',' !in gatewayIp && ',' !in ipCidr
    ensures var after := SetNet0Ip(SetNet0Gateway(net0, gatewayIp), ipCidr);
            && GetKey(after, "gw") == Some(gatewayIp) && GetKey(after, "ip") == Some(ipCidr)
            && (forall other | IsKey(other) && other != "gw" && other != "ip" ::
                GetKey(after, other) == GetKey(net0, other))
            && (after == SetNet0Gateway(SetNet0Ip(net0, ipCidr), gatewayIp) <==>
                GetKey(net0, "gw").Some? || GetKey(net0, "ip").Some?)
  {
    var once := SetNet0Gateway(net0, gatewayIp);
    GetReadsBackExactlyCommaFreeValues(net0, "gw", gatewayIp);
    GetReadsBackExactlyCommaFreeValues(once, "ip", ipCidr);
    OtherKeysUnchanged(once, "ip", ipCidr, "gw");
    forall other | IsKey(other) && other != "gw" && other != "ip"
      ensures GetKey(SetNet0Ip(once, ipCidr), other) == GetKey(net0, other)
    {
      OtherKeysUnchanged(net0, "gw", gatewayIp, other);
      OtherKeysUnchanged(once, "ip", ipCidr, other);
    }
    EditsCommuteExactlyWhen(net0, "gw", gatewayIp, "ip", ipCidr);
  }

  lemma NameIsTheOnlyField()
    ensures GetKey("name=e", "gw") == None && GetKey("name=e", "ip") == None
  {
    SplitAtFirst("name=e", "", ',');
    assert Fields("name=e") == ["name=e"];
    assert "name=e"[..3] != "gw=" by { assert "name=e"[..3][0] == 'n'; }
    assert "name=e"[..3] != "ip=" by { assert "name=e"[..3][0] == 'n'; }
  }

  /** On a value with neither key the two edits do not commute. */
  lemma TwoAppendsDoNotCommute(gatewayIp: string, ipCidr: string)
    requires ',' !in gatewayIp && ',' !in ipCidr
    ensures SetNet0Ip(SetNet0Gateway("name=e", gatewayIp), ipCidr)
            != SetNet0Gateway(SetNet0Ip("name=e", ipCidr), gatewayIp)
  {
    NameIsTheOnlyField();
    GatewayAndAddressEdits("name=e", gatewayIp, ipCidr);
  }

  /** An address change of an ipconfig0 value is read back and never touches its gateway, or any other field. */
  lemma CloudInitAddressEdit(ipconfig0: string, ipCidr: string)
    requires ',' !in ipCidr
    ensures GetKey(SetIpconfig0Ip(ipconfig0, ipCidr), "ip") == Some(ipCidr)
    ensures forall other | IsKey(other) && other != "ip" ::
            GetKey(SetIpconfig0Ip(ipconfig0, ipCidr), other) == GetKey(ipconfig0, other)
  {
    GetReadsBackExactlyCommaFreeValues(ipconfig0, "ip", ipCidr);
    forall other | IsKey(other) && other != "ip"
      ensures GetKey(SetIpconfig0Ip(ipconfig0, ipCidr), other) == GetKey(ipconfig0, other)
    {
      OtherKeysUnchanged(ipconfig0, "ip", ipCidr, other);
    }
  }

  lemma IndexAfterSet(fields: seq<string>, key: string, value: string, other: string)
    requires IsKey(key) && IsKey(other) && key != other
    ensures var after := SetField(fields, key, value);
            IndexOfKey(after, other)
                == if IndexOfKey(fields, other) < |fields| then IndexOfKey(fields, other) else |after|
    ensures IndexOfKey(fields, other) < |fields| ==>
            SetField(fields, key, value)[IndexOfKey(fields, other)] == fields[IndexOfKey(fields, other)]
  {
    var after := SetField(fields, key, value);
    var i := IndexOfKey(fields, key);
    KeysDoNotOverlap(key, other, value);
    if i < |fields| {
      FieldOf(fields[i], key);
      KeysDoNotOverlap(key, other, fields[i][|key| + 1..]);
    }
    assert forall j :: 0 <= j < |fields| ==> StartsWith(after[j], other + "=") == StartsWith(fields[j], other + "=");
    var k := IndexOfKey(fields, other);
    IndexOfKeyIs(after, other, if k < |fields| then k else |after|);
  }
}
