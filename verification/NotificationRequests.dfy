/**
List requests of the notification inbox, internal/adapters/http/notifications.go:252-272, and the
way a page's cursor comes back as the bound of the next request.
*/
module NotificationRequests {
  import opened Wrappers
  import opened Strings
  import opened NotificationInbox
  import opened NotificationCursor
  import Numerals

  datatype Params = Params(limit: Option<int>, unread: Option<bool>, before: Option<string>)

  predicate Readable(p: Params) {
    && (p.limit.Some? ==> 1 <= p.limit.value <= MaxPageSize)
    && (p.before.Some? ==> Trim(p.before.value) != "" && DecodeCursor(p.before.value).Some?)
  }

  method NotificationListOptions(p: Params, since: int) returns (r: Result<ListOptions, Error>)
    ensures r.Ok? <==> Readable(p)
    ensures r.Ok? ==> r.value == OptionsOf(p, since)
    ensures r.Err? ==> r.error == Invalid
    ensures r.Ok? ==>
              && r.value.limit == (if p.limit == None then 50 else p.limit.value)
              && (r.value.unreadOnly <==> p.unread == Some(true)) && r.value.since == since
              && r.value.before == (if p.before == None then 0 else DecodeCursor(p.before.value).value)
  {
    var options := ListOptions(0, false, MaxPageSize, since);
    if p.limit.Some? {
      if p.limit.value < 1 || p.limit.value > MaxPageSize { return Err(Invalid); }
      options := options.(limit := p.limit.value);
    }
    if p.unread.Some? { options := options.(unreadOnly := p.unread.value); }
    if p.before.Some? && Trim(p.before.value) != "" {
      var before := DecodeCursor(p.before.value);
      if before == None { return Err(Invalid); }
      options := options.(before := before.value);
    } else if p.before.Some? {
      return Err(Invalid);
    }
    return Ok(options);
  }

  function OptionsOf(p: Params, since: int): ListOptions
    requires Readable(p)
  {
    ListOptions(if p.before.Some? then DecodeCursor(p.before.value).value else 0,
                p.unread.Some? && p.unread.value, if p.limit.Some? then p.limit.value else MaxPageSize, since)
  }

  lemma {:induction false} TrimRightKeepsFirst(s: string)
    requires s != "" && !IsSpace(s[0])
    ensures TrimRight(s) != ""
  {
    if IsSpace(s[|s| - 1]) { TrimRightKeepsFirst(s[..|s| - 1]); }
  }

  lemma FirstLetter(bytes: seq<NotificationCursor.Byte>)
    requires bytes != [] && bytes[0] == 110
    ensures Encode(bytes) != "" && Encode(bytes)[0] == 'b'
  {
    assert Groups(bytes)[0] == 27;
  }

  lemma EncodedIsNotBlank(text: string)
    requires Ascii(text) && text != "" && text[0] == 'n'
    ensures Trim(Encode(AsBytes(text))) != ""
  {
    FirstLetter(AsBytes(text));
    TrimRightKeepsFirst(Encode(AsBytes(text)));
  }

  // Every cursor starts with the letter that encodes the top of an 'n'.
  lemma CursorIsNotBlank(sequence: nat)
    ensures Trim(EncodeCursor(sequence)) != ""
  {
    PrefixedText(Numerals.Decimal(sequence));
    EncodedIsNotBlank(Prefix + Numerals.Decimal(sequence));
  }

  lemma NextIsStored(s: Inbox, options: ListOptions)
    requires NotificationInbox.Valid(s) && Listed(s, options).Ok? && Listed(s, options).value.next != 0
    ensures 1 <= Listed(s, options).value.next < NotificationCursor.Limit
  {
    var found := Newest(s.rows, options);
    NewestSound(s.rows, options);
    assert found[options.limit - 1] in found;
  }

  // The cursor of a page is readable and asks for exactly what lies below that page.
  lemma CursorContinuesThePage(s: Inbox, p: Params, since: int)
    requires NotificationInbox.Valid(s) && Readable(p)
    requires Listed(s, OptionsOf(p, since)).Ok? && Listed(s, OptionsOf(p, since)).value.next != 0
    ensures var next := Listed(s, OptionsOf(p, since)).value.next;
            var q := p.(before := Some(EncodeCursor(next)));
            Readable(q) && OptionsOf(q, since) == OptionsOf(p, since).(before := next)
  {
    var next := Listed(s, OptionsOf(p, since)).value.next;
    NextIsStored(s, OptionsOf(p, since));
    CursorRoundTrip(next);
    CursorIsNotBlank(next);
  }
}
