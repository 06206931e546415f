/** The signed-URL helpers of MediaController: which requested image sizes
    are new for a field, the map of signed URLs built for an image, the
    response of `generateSignedUrls`, and the field update of
    `reGenerateAllSignedUrls`. Glide's URL signer is a parameter. */
module MediaUrls {
  import opened Common
  import opened PhpArrays

  /** `$v[$k]` on a value that may not be an array, null when absent. */
  function Field(v: Value, k: string): Value {
    if v.Arr? && Get(v.entries, k).Some? then Get(v.entries, k).value else Null
  }

  /** The test of onlyNewSizes: the field already has a size of that name,
      both it and the requested size carry `w` and `h`, and both pairs are
      loosely equal. */
  predicate Skip(existing: seq<Entry>, name: string, requested: Value) {
    IsSet(existing, name) &&
    IsSetIn(Get(existing, name).value, "w") && IsSetIn(Get(existing, name).value, "h") &&
    IsSetIn(requested, "w") && IsSetIn(requested, "h") &&
    LooseEq(Field(Get(existing, name).value, "w"), Field(requested, "w")) &&
    LooseEq(Field(Get(existing, name).value, "h"), Field(requested, "h"))
  }

  /** The requested sizes onlyNewSizes keeps, in their order. */
  function NewSizes(requested: seq<Entry>, existing: seq<Entry>): seq<Entry> {
    if requested == [] then []
    else
      var last := requested[|requested| - 1];
      NewSizes(requested[..|requested| - 1], existing) + (if Skip(existing, last.key, last.val) then [] else [last])
  }

  lemma {:induction false} NewSizesAppend(a: seq<Entry>, b: seq<Entry>, existing: seq<Entry>)
    ensures NewSizes(a + b, existing) == NewSizes(a, existing) + NewSizes(b, existing)
    decreases |b|
  {
    if b == [] {
      assert a + b == a;
    } else {
      var b' := b[..|b| - 1];
      assert (a + b)[..|a + b| - 1] == a + b';
      NewSizesAppend(a, b', existing);
    }
  }

  lemma {:induction false} NewSizesMembers(requested: seq<Entry>, existing: seq<Entry>)
    ensures forall e :: e in NewSizes(requested, existing) <==> e in requested && !Skip(existing, e.key, e.val)
  {
    if requested != [] {
      var init := requested[..|requested| - 1];
      NewSizesMembers(init, existing);
      assert requested == init + [requested[|requested| - 1]];
    }
  }

  /** onlyNewSizes only deletes: an entry survives exactly when it is not
      skipped, survivors keep their values, the result holds no key that
      was not requested, and deleting preserves the relative order of what
      is left (the result of a concatenation is the concatenation of the
      results). */
  lemma NewSizesSpec(requested: seq<Entry>, existing: seq<Entry>)
    requires DistinctKeys(requested)
    ensures var r := NewSizes(requested, existing);
      DistinctKeys(r) &&
      (forall e :: e in r <==> e in requested && !Skip(existing, e.key, e.val)) &&
      (forall k :: Get(r, k) ==
         if Get(requested, k).Some? && !Skip(existing, k, Get(requested, k).value) then Get(requested, k) else None)
    ensures forall a, b :: requested == a + b ==>
      NewSizes(requested, existing) == NewSizes(a, existing) + NewSizes(b, existing)
  {
    var r := NewSizes(requested, existing);
    NewSizesMembers(requested, existing);
    assert DistinctKeys(r) by {
      NewSizesDistinct(requested, existing);
    }
    forall k
      ensures Get(r, k) == if Get(requested, k).Some? && !Skip(existing, k, Get(requested, k).value) then Get(requested, k) else None
    {
      if Get(r, k).Some? {
        assert Entry(k, Get(r, k).value) in requested;
        UniqueEntry(requested, Entry(k, Get(r, k).value));
      }
    }
    forall a, b | requested == a + b
      ensures NewSizes(requested, existing) == NewSizes(a, existing) + NewSizes(b, existing)
    {
      NewSizesAppend(a, b, existing);
    }
  }

  /** Under distinct keys, an entry of the array is what lookup finds. */
  lemma UniqueEntry(a: seq<Entry>, e: Entry)
    requires DistinctKeys(a) && e in a
    ensures Get(a, e.key) == Some(e.val)
  {
    var i :| 0 <= i < |a| && a[i] == e;
    GetAt(a, i);
  }

  lemma {:induction false} NewSizesDistinct(requested: seq<Entry>, existing: seq<Entry>)
    requires DistinctKeys(requested)
    ensures DistinctKeys(NewSizes(requested, existing))
  {
    if requested != [] {
      var init := requested[..|requested| - 1];
      var last := requested[|requested| - 1];
      NewSizesDistinct(init, existing);
      NewSizesMembers(init, existing);
      var r0 := NewSizes(init, existing);
      forall i | 0 <= i < |r0|
        ensures r0[i].key != last.key
      {
        assert r0[i] in init;
        var j :| 0 <= j < |init| && init[j] == r0[i];
      }
    }
  }

  /** A requested size missing `w` or `h`, or whose existing counterpart is
      missing either, is always kept. */
  lemma IncompleteSizeKept(requested: seq<Entry>, existing: seq<Entry>, e: Entry)
    requires e in requested
    requires !IsSetIn(e.val, "w") || !IsSetIn(e.val, "h") ||
      !IsSet(existing, e.key) || !IsSetIn(Get(existing, e.key).value, "w") || !IsSetIn(Get(existing, e.key).value, "h")
    ensures e in NewSizes(requested, existing)
  {
    NewSizesMembers(requested, existing);
  }

  /** A field whose `hero` size is already 800x600, its width stored as
      the string "800", gets no new `hero` size when 800x600 is asked for
      with integers; a request of width "1024" is new. */
  lemma NewSizesExample(existing: seq<Entry>, same: Entry, wider: Entry)
    requires existing == [Entry("hero", Arr([Entry("w", Str("800")), Entry("h", Int(600))]))]
    requires same == Entry("hero", Arr([Entry("w", Int(800)), Entry("h", Int(600))]))
    requires wider == Entry("hero", Arr([Entry("w", Str("1024")), Entry("h", Int(600))]))
    ensures NewSizes([same], existing) == []
    ensures NewSizes([wider], existing) == [wider]
  {
    NoNewSize(existing, same);
    NewSize(existing, wider);
  }

  lemma NoNewSize(existing: seq<Entry>, same: Entry)
    requires existing == [Entry("hero", Arr([Entry("w", Str("800")), Entry("h", Int(600))]))]
    requires same == Entry("hero", Arr([Entry("w", Int(800)), Entry("h", Int(600))]))
    ensures NewSizes([same], existing) == []
  {
    var old_ := Get(existing, "hero").value;
    assert old_ == Arr([Entry("w", Str("800")), Entry("h", Int(600))]);
    assert Field(old_, "w") == Str("800");
    assert Field(old_, "h") == Int(600);
    EightHundred();
    assert Field(same.val, "w") == Int(800);
    assert Field(same.val, "h") == Int(600);
    assert Skip(existing, "hero", same.val);
    assert [same][..0] == [];
  }

  lemma NewSize(existing: seq<Entry>, wider: Entry)
    requires existing == [Entry("hero", Arr([Entry("w", Str("800")), Entry("h", Int(600))]))]
    requires wider == Entry("hero", Arr([Entry("w", Str("1024")), Entry("h", Int(600))]))
    ensures NewSizes([wider], existing) == [wider]
  {
    var old_ := Get(existing, "hero").value;
    assert old_ == Arr([Entry("w", Str("800")), Entry("h", Int(600))]);
    assert Field(old_, "w") == Str("800");
    assert Field(wider.val, "w") == Str("1024");
    assert !Skip(existing, "hero", wider.val);
    assert [wider][..0] == [];
  }

  lemma EightHundred()
    ensures IntToString(800) == "800"
  {
    assert NatToString(8) == "8";
    assert NatToString(80) == NatToString(8) + [DigitChar(0)];
    assert NatToString(800) == NatToString(80) + [DigitChar(0)];
  }

  lemma {:induction false} UnsetAbsent(a: seq<Entry>, k: string)
    requires k !in Keys(a)
    ensures Unset(a, k) == a
  {
    if a != [] {
      assert Keys(a)[0] == a[0].key;
      assert Keys(a[1..]) == Keys(a)[1..];
      UnsetAbsent(a[1..], k);
    }
  }

  lemma {:induction false} UnsetOne(a: seq<Entry>, e: Entry, b: seq<Entry>)
    requires e.key !in Keys(a) && e.key !in Keys(b)
    ensures Unset(a + ([e] + b), e.key) == a + b
  {
    if a == [] {
      assert a + ([e] + b) == [e] + b;
      UnsetHead(e, b);
      UnsetAbsent(b, e.key);
    } else {
      KeyNotInTail(a, e.key);
      UnsetOne(a[1..], e, b);
      UnsetCons(a[0], a[1..] + ([e] + b), e.key);
      ConsSplit(a, [e] + b);
      ConsSplit(a, b);
    }
  }

  lemma ConsSplit<T>(a: seq<T>, b: seq<T>)
    requires a != []
    ensures a + b == [a[0]] + (a[1..] + b)
  {
  }

  lemma UnsetHead(e: Entry, b: seq<Entry>)
    ensures Unset([e] + b, e.key) == Unset(b, e.key)
  {
    assert ([e] + b)[1..] == b;
  }

  lemma UnsetCons(x: Entry, t: seq<Entry>, k: string)
    requires x.key != k
    ensures Unset([x] + t, k) == [x] + Unset(t, k)
  {
    assert ([x] + t)[1..] == t;
  }

  lemma KeyNotInTail(a: seq<Entry>, k: string)
    requires a != [] && k !in Keys(a)
    ensures k != a[0].key && k !in Keys(a[1..])
  {
    assert Keys(a)[0] == a[0].key;
    forall j | 0 <= j < |a| - 1
      ensures Keys(a[1..])[j] != k
    {
      assert Keys(a)[j + 1] == a[j + 1].key;
    }
  }

  /** One turn of the onlyNewSizes loop, on the array it edits: the
      entries before position i are already filtered, the rest untouched. */
  lemma OnlyNewSizesStep(requested: seq<Entry>, existing: seq<Entry>, i: nat)
    requires DistinctKeys(requested) && i < |requested|
    ensures var e := requested[i];
      var cur := NewSizes(requested[..i], existing) + requested[i..];
      NewSizes(requested[..i + 1], existing) + requested[i + 1..] ==
        if Skip(existing, e.key, e.val) then Unset(cur, e.key) else cur
  {
    var e := requested[i];
    NewSizesSnoc(requested, existing, i);
    if Skip(existing, e.key, e.val) {
      SkipStep(requested, existing, i);
    } else {
      KeepStep(requested, existing, i);
    }
  }

  lemma KeepStep(requested: seq<Entry>, existing: seq<Entry>, i: nat)
    requires i < |requested|
    requires NewSizes(requested[..i + 1], existing) == NewSizes(requested[..i], existing) + [requested[i]]
    ensures NewSizes(requested[..i + 1], existing) + requested[i + 1..] ==
      NewSizes(requested[..i], existing) + requested[i..]
  {
    assert requested[i..] == [requested[i]] + requested[i + 1..];
  }

  /** The last entry of a prefix is filtered by Skip. */
  lemma NewSizesSnoc(requested: seq<Entry>, existing: seq<Entry>, i: nat)
    requires i < |requested|
    ensures NewSizes(requested[..i + 1], existing) ==
      NewSizes(requested[..i], existing) + (if Skip(existing, requested[i].key, requested[i].val) then [] else [requested[i]])
  {
    assert requested[..i + 1][..i] == requested[..i];
  }

  lemma SkipStep(requested: seq<Entry>, existing: seq<Entry>, i: nat)
    requires DistinctKeys(requested) && i < |requested|
    requires NewSizes(requested[..i + 1], existing) == NewSizes(requested[..i], existing)
    ensures NewSizes(requested[..i + 1], existing) + requested[i + 1..] ==
      Unset(NewSizes(requested[..i], existing) + requested[i..], requested[i].key)
  {
    var e := requested[i];
    var done := NewSizes(requested[..i], existing);
    var rest := requested[i + 1..];
    KeyNotBefore(requested, existing, i);
    KeyNotAfter(requested, i);
    SplitAt(requested, i);
    UnsetOne(done, e, rest);
  }

  lemma SplitAt<T>(s: seq<T>, i: nat)
    requires i < |s|
    ensures s[i..] == [s[i]] + s[i + 1..]
  {
  }

  lemma KeyNotBefore(requested: seq<Entry>, existing: seq<Entry>, i: nat)
    requires DistinctKeys(requested) && i < |requested|
    ensures requested[i].key !in Keys(NewSizes(requested[..i], existing))
  {
    var done := NewSizes(requested[..i], existing);
    NewSizesMembers(requested[..i], existing);
  }

  lemma KeyNotAfter(requested: seq<Entry>, i: nat)
    requires DistinctKeys(requested) && i < |requested|
    ensures requested[i].key !in Keys(requested[i + 1..])
  {
  }

  /** `onlyNewSizes($requestedSizes, $sizes)`: drops, in place, each
      requested size that the field already has at the same dimensions. */
  method OnlyNewSizes(requested: seq<Entry>, sizes: Value) returns (r: seq<Entry>)
    requires DistinctKeys(requested)
    ensures r == NewSizes(requested, AsArray(sizes))
  {
    var existing := AsArray(sizes);
    r := requested;
    for i := 0 to |requested|
      invariant r == NewSizes(requested[..i], existing) + requested[i..]
    {
      OnlyNewSizesStep(requested, existing, i);
      var e := requested[i];
      if Skip(existing, e.key, e.val) {
        r := Unset(r, e.key);
      }
    }
    assert requested[..|requested|] == requested;
  }

  // ---------------------------------------------------------------------
  // getNewMediaSignedURls

  /** The settings one size is signed with: the base settings overridden
      by the size's own keys, its `breakpoints` dropped first. A size that
      is not an array cannot be merged and throws. */
  function SizeSettings(settings: seq<Entry>, size: Value): Outcome<seq<Entry>> {
    if size.Arr? then Returned(Merge(settings, Unset(size.entries, "breakpoints")))
    else Raised("array_merge(): Argument #2 must be of type array")
  }

  /** The two entries every URL map starts with. */
  function BaseUrls(path: string, settings: seq<Entry>, sign: (string, seq<Entry>) -> string): seq<Entry> {
    [Entry("original", Str(path)), Entry("orig_optimized", Str(sign(path, settings)))]
  }

  /** The `foreach ($sizes as $name => $size)` loop from a given map. */
  function AddSizes(urls: seq<Entry>, path: string, settings: seq<Entry>, sizes: seq<Entry>,
                    sign: (string, seq<Entry>) -> string): Outcome<seq<Entry>>
    decreases |sizes|
  {
    if sizes == [] then Returned(urls)
    else match SizeSettings(settings, sizes[0].val)
      case Raised(m) => Raised(m)
      case Returned(s) => AddSizes(Set(urls, sizes[0].key, Str(sign(path, s))), path, settings, sizes[1..], sign)
  }

  /** `getNewMediaSignedURls($originalPath, $settings, $sizes)`. */
  function SignedUrls(path: string, settings: seq<Entry>, sizes: seq<Entry>,
                      sign: (string, seq<Entry>) -> string): Outcome<seq<Entry>> {
    AddSizes(BaseUrls(path, settings, sign), path, settings, sizes, sign)
  }

  /** What each key of the URL map holds. */
  function ExpectedUrl(urls: seq<Entry>, path: string, settings: seq<Entry>, sizes: seq<Entry>,
                       sign: (string, seq<Entry>) -> string, k: string): Option<Value>
  {
    if Get(sizes, k).Some? && Get(sizes, k).value.Arr? then
      Some(Str(sign(path, Merge(settings, Unset(Get(sizes, k).value.entries, "breakpoints")))))
    else Get(urls, k)
  }

  predicate AllArrays(sizes: seq<Entry>) {
    forall e :: e in sizes ==> e.val.Arr?
  }

  lemma {:induction false} AddSizesSpec(urls: seq<Entry>, path: string, settings: seq<Entry>, sizes: seq<Entry>,
                                        sign: (string, seq<Entry>) -> string)
    requires DistinctKeys(sizes)
    ensures AddSizes(urls, path, settings, sizes, sign).Returned? <==> AllArrays(sizes)
    ensures AddSizes(urls, path, settings, sizes, sign).Returned? ==>
      forall k :: Get(AddSizes(urls, path, settings, sizes, sign).value, k) == ExpectedUrl(urls, path, settings, sizes, sign, k)
    decreases |sizes|
  {
    if sizes != [] {
      DistinctTail(sizes);
      var e := sizes[0];
      if e.val.Arr? {
        var s := Merge(settings, Unset(e.val.entries, "breakpoints"));
        var urls' := Set(urls, e.key, Str(sign(path, s)));
        AddSizesSpec(urls', path, settings, sizes[1..], sign);
        assert AllArrays(sizes) <==> AllArrays(sizes[1..]) by {
          if AllArrays(sizes[1..]) {
            forall x | x in sizes
              ensures x.val.Arr?
            {
              if x != e {
                var i :| 0 <= i < |sizes| && sizes[i] == x;
                assert sizes[1..][i - 1] == x;
              }
            }
          }
        }
        var r := AddSizes(urls, path, settings, sizes, sign);
        if r.Returned? {
          forall k
            ensures Get(r.value, k) == ExpectedUrl(urls, path, settings, sizes, sign, k)
          {
            if k != e.key {
              assert Get(sizes, k) == Get(sizes[1..], k);
            }
          }
        }
      } else {
        assert e in sizes;
      }
    }
  }

  /** The URL map: a size's name holds the URL signed with that size's
      settings; `original` holds the image path and `orig_optimized` the
      URL signed with the base settings, unless a size of that name
      overrides them. The map exists exactly when every size is an array. */
  lemma SignedUrlsSpec(path: string, settings: seq<Entry>, sizes: seq<Entry>, sign: (string, seq<Entry>) -> string)
    requires DistinctKeys(sizes)
    ensures SignedUrls(path, settings, sizes, sign).Returned? <==> AllArrays(sizes)
    ensures SignedUrls(path, settings, sizes, sign).Returned? ==>
      var urls := SignedUrls(path, settings, sizes, sign).value;
      (forall k :: Get(urls, k) == ExpectedUrl(BaseUrls(path, settings, sign), path, settings, sizes, sign, k)) &&
      ("original" !in Keys(sizes) ==> Get(urls, "original") == Some(Str(path))) &&
      ("orig_optimized" !in Keys(sizes) ==> Get(urls, "orig_optimized") == Some(Str(sign(path, settings))))
  {
    var base := BaseUrls(path, settings, sign);
    AddSizesSpec(base, path, settings, sizes, sign);
    var out := SignedUrls(path, settings, sizes, sign);
    if out.Returned? {
      if "original" !in Keys(sizes) {
        assert Get(out.value, "original") == ExpectedUrl(base, path, settings, sizes, sign, "original");
        assert Get(base, "original") == Some(Str(path));
      }
      if "orig_optimized" !in Keys(sizes) {
        assert Get(out.value, "orig_optimized") == ExpectedUrl(base, path, settings, sizes, sign, "orig_optimized");
        assert base[1..] == [Entry("orig_optimized", Str(sign(path, settings)))];
        assert Get(base, "orig_optimized") == Some(Str(sign(path, settings)));
      }
    }
  }

  /** With no sizes the map holds exactly `original` and `orig_optimized`. */
  lemma SignedUrlsNoSizes(path: string, settings: seq<Entry>, sign: (string, seq<Entry>) -> string)
    ensures SignedUrls(path, settings, [], sign) == Returned(BaseUrls(path, settings, sign))
    ensures Keys(SignedUrls(path, settings, [], sign).value) == ["original", "orig_optimized"]
  {
  }

  /** `getNewMediaSignedURls`: builds the map entry by entry. */
  method GetNewMediaSignedUrls(path: string, settings: seq<Entry>, sizes: seq<Entry>,
                               sign: (string, seq<Entry>) -> string) returns (r: Outcome<seq<Entry>>)
    ensures r == SignedUrls(path, settings, sizes, sign)
  {
    var urls := BaseUrls(path, settings, sign);
    for i := 0 to |sizes|
      invariant AddSizes(urls, path, settings, sizes[i..], sign) == SignedUrls(path, settings, sizes, sign)
    {
      assert sizes[i..][1..] == sizes[i + 1..];
      var size := sizes[i].val;
      if !size.Arr? {
        return Raised("array_merge(): Argument #2 must be of type array");
      }
      var sizeSettings := Merge(settings, Unset(size.entries, "breakpoints"));
      urls := Set(urls, sizes[i].key, Str(sign(path, sizeSettings)));
    }
    assert sizes[|sizes|..] == [];
    return Returned(urls);
  }

  // ---------------------------------------------------------------------
  // generateSignedUrls

  /** The response of generateSignedUrls. */
  datatype Generated = Generated(images: seq<Entry>, settings: seq<Entry>, alt: string)

  /** PHP's type name of a value, as warnings print it. */
  function TypeName(v: Value): string {
    match v
    case Null => "null"
    case Int(_) => "int"
    case Str(_) => "string"
    case Arr(_) => "array"
  }

  /** The entries a `foreach` visits. Anything but an array makes PHP warn,
      and the framework's error handler turns the warning into an
      exception. */
  function Iterated(v: Value): (r: Outcome<seq<Entry>>)
    ensures r.Returned? <==> v.Arr?
    ensures v.Arr? ==> r.value == v.entries
  {
    if v.Arr? then Returned(v.entries)
    else Raised("foreach() argument must be of type array|object, " + TypeName(v) + " given")
  }

  /** `generateSignedUrls($request)`: `settings['sizes']`, when set, is
      the size list and is removed from the settings returned; the images
      are the URL map for those sizes; the alt text comes from ImageAlts. */
  method GenerateSignedUrls(original: string, settings: seq<Entry>, sign: (string, seq<Entry>) -> string,
                            altOf: string -> string) returns (r: Outcome<Generated>)
    requires DistinctKeys(settings)
    ensures r.Returned? ==> !IsSet(r.value.settings, "sizes")
    ensures r.Returned? ==> forall k :: k != "sizes" ==> Get(r.value.settings, k) == Get(settings, k)
    ensures r.Returned? ==> r.value.alt == altOf(original)
    ensures IsSet(settings, "sizes") && !Get(settings, "sizes").value.Arr? ==>
      r == Raised(Iterated(Get(settings, "sizes").value).message)
    ensures IsSet(settings, "sizes") && Get(settings, "sizes").value.Arr? ==>
      r == match SignedUrls(original, Unset(settings, "sizes"), Get(settings, "sizes").value.entries, sign)
           case Raised(m) => Raised(m)
           case Returned(images) => Returned(Generated(images, Unset(settings, "sizes"), altOf(original)))
    ensures !IsSet(settings, "sizes") ==>
      r == Returned(Generated(BaseUrls(original, settings, sign), settings, altOf(original))) &&
      Keys(r.value.images) == ["original", "orig_optimized"]
  {
    var sizes: seq<Entry> := [];
    var s := settings;
    if IsSet(settings, "sizes") {
      var visited := Iterated(Get(settings, "sizes").value);
      if visited.Raised? {
        return Raised(visited.message);
      }
      sizes := visited.value;
      s := Unset(settings, "sizes");
      UnsetSpec(settings, "sizes");
    } else {
      SignedUrlsNoSizes(original, settings, sign);
    }
    var images := GetNewMediaSignedUrls(original, s, sizes, sign);
    if images.Raised? {
      return Raised(images.message);
    }
    return Returned(Generated(images.value, s, altOf(original)));
  }

  // ---------------------------------------------------------------------
  // reGenerateAllSignedUrls

  /** A field row: its decoded value and its `original_image` accessor. */
  datatype FieldRow = FieldRow(value: Value, originalImage: string)

  /** The sizes the field already has: `$field->value['sizes'] ?? []`. */
  function ExistingSizes(v: Value): Value {
    if Field(v, "sizes") != Null then Field(v, "sizes") else Arr([])
  }

  /** The settings the field is signed with: its own when set, else the
      configured default. */
  function FieldSettings(v: Value, defaultSettings: seq<Entry>): seq<Entry> {
    if IsSetIn(v, "settings") then AsArray(Field(v, "settings")) else defaultSettings
  }

  /** `array_merge(['media' => []], (array)$field->value)`. */
  function StartValue(v: Value): seq<Entry> {
    Merge([Entry("media", Arr([]))], AsArray(v))
  }

  /** The merge step: `url` set to the original image, the new URLs merged
      over the old `media`, `sizes` replaced. */
  function MergeUrls(value: seq<Entry>, original: string, urls: seq<Entry>, allSizes: Value): seq<Entry> {
    var v1 := Set(value, "url", Str(original));
    var media := if Get(v1, "media").Some? then AsArray(Get(v1, "media").value) else [];
    var v2 := Set(v1, "media", Arr(Merge(media, urls)));
    Set(v2, "sizes", allSizes)
  }

  /** One turn of the field loop: the value saved, None when the field is
      left alone. */
  function Regenerate(field: FieldRow, requestedSizes: seq<Entry>, allSizes: Value,
                      defaultSettings: seq<Entry>, sign: (string, seq<Entry>) -> string): Outcome<Option<seq<Entry>>>
  {
    if !Truthy(field.originalImage) then Returned(None)
    else
      var newSizes := NewSizes(requestedSizes, AsArray(ExistingSizes(field.value)));
      if newSizes == [] then Returned(None)
      else match SignedUrls(field.originalImage, FieldSettings(field.value, defaultSettings), newSizes, sign)
        case Raised(m) => Raised(m)
        case Returned(urls) => Returned(Some(MergeUrls(StartValue(field.value), field.originalImage, urls, allSizes)))
  }

  /** `array_merge` never loses a key of its first argument. */
  lemma {:induction false} MergeKeepsKey(a: seq<Entry>, b: seq<Entry>, k: string)
    requires k in Keys(a)
    ensures k in Keys(Merge(a, b))
    decreases |b|
  {
    if b != [] {
      var a' := Set(a, b[0].key, b[0].val);
      assert Get(a', k).Some?;
      MergeKeepsKey(a', b[1..], k);
    }
  }

  /** The start value always has a `media` key. */
  lemma StartValueHasMedia(v: Value)
    ensures Get(StartValue(v), "media").Some?
  {
    var a := [Entry("media", Arr([]))];
    assert Keys(a)[0] == "media";
    MergeKeepsKey(a, AsArray(v), "media");
  }

  /** The merge step sets `url` and `sizes`, merges the URLs over the old
      `media` map (new URLs override, old ones stay), and leaves every
      other key alone. */
  lemma MergeUrlsSpec(value: seq<Entry>, original: string, urls: seq<Entry>, allSizes: Value)
    requires DistinctKeys(urls) && Get(value, "media").Some?
    ensures var v := MergeUrls(value, original, urls, allSizes);
      Get(v, "url") == Some(Str(original)) &&
      Get(v, "sizes") == Some(allSizes) &&
      Get(v, "media").Some? && Get(v, "media").value.Arr? &&
      (forall k :: Get(Get(v, "media").value.entries, k) ==
         if k in Keys(urls) then Get(urls, k) else Get(AsArray(Get(value, "media").value), k)) &&
      (forall k :: k != "url" && k != "media" && k != "sizes" ==> Get(v, k) == Get(value, k))
  {
    var v1 := Set(value, "url", Str(original));
    assert Get(v1, "media") == Get(value, "media");
    var media := AsArray(Get(value, "media").value);
    MergeSpec(media, urls);
    var v2 := Set(v1, "media", Arr(Merge(media, urls)));
    assert Get(v2, "media") == Some(Arr(Merge(media, urls)));
  }

  /** A field changes only when it has an original image and at least one
      requested size is new (and every new size is an array); the value
      saved is then the merge step applied to the field's value with the
      URLs signed for the new sizes only, which are distinct, on a value
      that has a `media` map (MergeUrlsSpec says what that step does). */
  lemma RegenerateSpec(field: FieldRow, requestedSizes: seq<Entry>, allSizes: Value,
                       defaultSettings: seq<Entry>, sign: (string, seq<Entry>) -> string)
    requires DistinctKeys(requestedSizes)
    ensures var out := Regenerate(field, requestedSizes, allSizes, defaultSettings, sign);
      var newSizes := NewSizes(requestedSizes, AsArray(ExistingSizes(field.value)));
      (out.Returned? && out.value.Some? <==>
         Truthy(field.originalImage) && newSizes != [] && AllArrays(newSizes))
    ensures var out := Regenerate(field, requestedSizes, allSizes, defaultSettings, sign);
      var newSizes := NewSizes(requestedSizes, AsArray(ExistingSizes(field.value)));
      var urls := SignedUrls(field.originalImage, FieldSettings(field.value, defaultSettings), newSizes, sign);
      out.Returned? && out.value.Some? ==>
        urls.Returned? && DistinctKeys(urls.value) && Get(StartValue(field.value), "media").Some? &&
        out.value.value == MergeUrls(StartValue(field.value), field.originalImage, urls.value, allSizes)
  {
    var newSizes := NewSizes(requestedSizes, AsArray(ExistingSizes(field.value)));
    if Truthy(field.originalImage) && newSizes != [] {
      var settings := FieldSettings(field.value, defaultSettings);
      var base := BaseUrls(field.originalImage, settings, sign);
      NewSizesDistinct(requestedSizes, AsArray(ExistingSizes(field.value)));
      AddSizesSpec(base, field.originalImage, settings, newSizes, sign);
      AddSizesDistinct(base, field.originalImage, settings, newSizes, sign);
      StartValueHasMedia(field.value);
    }
  }

  lemma {:induction false} AddSizesDistinct(urls: seq<Entry>, path: string, settings: seq<Entry>, sizes: seq<Entry>,
                                            sign: (string, seq<Entry>) -> string)
    requires DistinctKeys(urls)
    ensures AddSizes(urls, path, settings, sizes, sign).Returned? ==> DistinctKeys(AddSizes(urls, path, settings, sizes, sign).value)
    decreases |sizes|
  {
    if sizes != [] && sizes[0].val.Arr? {
      var s := Merge(settings, Unset(sizes[0].val.entries, "breakpoints"));
      SetDistinct(urls, sizes[0].key, Str(sign(path, s)));
      AddSizesDistinct(Set(urls, sizes[0].key, Str(sign(path, s))), path, settings, sizes[1..], sign);
    }
  }

  /** The field after its turn of the loop, or the exception it throws.
      `requested` is the request's `sizes['sizes']`, null when absent; it
      is iterated only for a field with an original image, and anything
      but an array then throws. */
  function Turn(field: FieldRow, requested: Value, allSizes: Value,
                defaultSettings: seq<Entry>, sign: (string, seq<Entry>) -> string): (r: Outcome<FieldRow>)
    ensures !Truthy(field.originalImage) ==> r == Returned(field)
    ensures Truthy(field.originalImage) && !requested.Arr? ==> r == Raised(Iterated(requested).message)
    ensures r.Returned? ==> r.value.originalImage == field.originalImage
  {
    if !Truthy(field.originalImage) then Returned(field)
    else match Iterated(requested)
      case Raised(m) => Raised(m)
      case Returned(requestedSizes) =>
        match Regenerate(field, requestedSizes, allSizes, defaultSettings, sign)
        case Raised(m) => Raised(m)
        case Returned(Some(v)) => Returned(field.(value := Arr(v)))
        case Returned(None) => Returned(field)
  }

  /** The field loop of reGenerateAllSignedUrls for any per-field turn:
      each field in turn is replaced by what its turn returns; an
      exception stops the loop, leaving that field and the ones after it
      as they were. Returns how many fields were handled and the
      exception, if any. */
  method RunTurns(fields: array<FieldRow>, turn: FieldRow -> Outcome<FieldRow>)
    returns (handled: nat, error: Option<string>)
    modifies fields
    ensures handled <= fields.Length
    ensures error.None? <==> handled == fields.Length
    ensures forall i :: 0 <= i < handled ==> turn(old(fields[i])) == Returned(fields[i])
    ensures forall i :: handled <= i < fields.Length ==> fields[i] == old(fields[i])
    ensures error.Some? ==> turn(fields[handled]) == Raised(error.value)
  {
    handled := 0;
    while handled < fields.Length
      invariant handled <= fields.Length
      invariant forall i :: 0 <= i < handled ==> turn(old(fields[i])) == Returned(fields[i])
      invariant forall i :: handled <= i < fields.Length ==> fields[i] == old(fields[i])
    {
      var out := turn(fields[handled]);
      if out.Raised? {
        return handled, Some(out.message);
      }
      fields[handled] := out.value;
      handled := handled + 1;
    }
    return handled, None;
  }

  /** `reGenerateAllSignedUrls`: every field of the slice instance is
      regenerated and saved in turn, as Turn says. */
  method ReGenerateAllSignedUrls(fields: array<FieldRow>, requested: Value, allSizes: Value,
                                 defaultSettings: seq<Entry>, sign: (string, seq<Entry>) -> string)
    returns (handled: nat, error: Option<string>)
    modifies fields
    ensures handled <= fields.Length
    ensures error.None? <==> handled == fields.Length
    ensures forall i :: 0 <= i < handled ==>
      Turn(old(fields[i]), requested, allSizes, defaultSettings, sign) == Returned(fields[i])
    ensures forall i :: handled <= i < fields.Length ==> fields[i] == old(fields[i])
    ensures error.Some? ==>
      Turn(fields[handled], requested, allSizes, defaultSettings, sign) == Raised(error.value)
  {
    handled, error := RunTurns(fields, f => Turn(f, requested, allSizes, defaultSettings, sign));
  }
}
