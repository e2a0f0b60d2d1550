/**
 * The message input box: its text, the local "is typing" flag with the inactivity timer that
 * clears it, and the emoji picker. Calls to the `onTyping` and `onSendMessage` callbacks are
 * recorded in `typingSignals` and `sent`; the 3-second timer is an armed flag, and its expiry
 * is the `TypingTimeout` event.
 */
module MessageInput {
  import opened Text

  /** The characters counter under the text field. */
  datatype Counter = Hidden | Grey | Red

  /** The `onTyping` flags alternate, starting with `true`. */
  predicate Alternating(signals: seq<bool>) {
    forall i :: 0 <= i < |signals| ==> signals[i] == (i % 2 == 0)
  }

  /** Text as `sendMessage` hands it on: not empty, and neither starting nor ending with white space. */
  predicate Sendable(text: string) {
    text != [] && !IsSpace(text[0]) && !IsSpace(text[|text| - 1])
  }

  /** `message.length > 200` shows the counter, and over 300 it turns red. */
  function CounterOf(message: string): (r: Counter)
    ensures r == Hidden <==> |message| <= 200
    ensures r == Red <==> |message| > 300
    ensures r == Grey <==> 200 < |message| <= 300
  {
    if |message| <= 200 then Hidden else if |message| <= 300 then Grey else Red
  }

  /** The send button's `disabled` attribute. */
  function SendButtonDisabled(disabled: bool, message: string): (r: bool)
    ensures r <==> disabled || Trim(message) == []
    ensures !r ==> Sendable(Trim(message))
  {
    disabled || Trim(message) == []
  }

  /** The most recent `onTyping` flag, `false` before the first call. */
  function LastSignal(signals: seq<bool>): bool {
    signals != [] && signals[|signals| - 1]
  }

  /** Appending the opposite of the last flag keeps the signals alternating. */
  lemma AlternatingExtend(signals: seq<bool>, b: bool)
    requires Alternating(signals)
    requires b == !LastSignal(signals)
    ensures Alternating(signals + [b]) && LastSignal(signals + [b]) == b
  {
    var t := signals + [b];
    forall i | 0 <= i < |t| ensures t[i] == (i % 2 == 0) {
      if i < |signals| {
        assert t[i] == signals[i];
      }
    }
  }

  class MessageInput {
    var message: string
    var isTyping: bool
    var showEmojiPicker: bool
    /** `typingTimeoutRef.current` holds a timer that has not fired or been cleared. */
    var timerArmed: bool
    /** Every `onTyping(flag)` call so far, in order. */
    var typingSignals: seq<bool>
    /** Every `onSendMessage(text)` call so far, in order. */
    var sent: seq<string>

    /**
     * The timer is armed exactly while the user is shown as typing; the `onTyping` calls
     * alternate, starting with `true`, and the last one agrees with `isTyping`; everything
     * sent is trimmed and non-empty.
     */
    predicate Valid()
      reads this
    {
      && timerArmed == isTyping
      && Alternating(typingSignals)
      && isTyping == LastSignal(typingSignals)
      && (forall i :: 0 <= i < |sent| ==> Sendable(sent[i]))
    }

    constructor()
      ensures Valid()
      ensures message == "" && !isTyping && !showEmojiPicker && typingSignals == [] && sent == []
    {
      message := "";
      isTyping := false;
      showEmojiPicker := false;
      timerArmed := false;
      typingSignals := [];
      sent := [];
    }

    /**
     * `handleInputChange`: non-blank text starts typing (signalling `true` only if it was not
     * typing) and re-arms the timer; blank text while typing stops it at once (signalling
     * `false`) and clears the timer.
     */
    method HandleInputChange(value: string)
      requires Valid()
      modifies this
      ensures Valid()
      ensures message == value
      ensures isTyping <==> !Blank(value)
      ensures typingSignals == old(typingSignals) +
        (if !Blank(value) && !old(isTyping) then [true]
         else if Blank(value) && old(isTyping) then [false]
         else [])
      ensures showEmojiPicker == old(showEmojiPicker) && sent == old(sent)
    {
      message := value;
      var active := Trim(value) != [];
      if active {
        if !isTyping {
          AlternatingExtend(typingSignals, true);
          isTyping := true;
          typingSignals := typingSignals + [true];
        }
        timerArmed := true;
      } else if isTyping {
        AlternatingExtend(typingSignals, false);
        isTyping := false;
        typingSignals := typingSignals + [false];
        timerArmed := false;
      }
    }

    /** The inactivity timer fires: typing stops and `false` is signalled. */
    method TypingTimeout()
      requires Valid() && timerArmed
      modifies this
      ensures Valid()
      ensures !isTyping && !timerArmed
      ensures typingSignals == old(typingSignals) + [false]
      ensures message == old(message) && showEmojiPicker == old(showEmojiPicker) && sent == old(sent)
    {
      AlternatingExtend(typingSignals, false);
      isTyping := false;
      typingSignals := typingSignals + [false];
      timerArmed := false;
    }

    /**
     * `sendMessage`: when the send button would be enabled, sends the trimmed text, empties
     * the field and stops typing; otherwise changes nothing.
     */
    method SendMessage(disabled: bool)
      requires Valid()
      modifies this
      ensures Valid()
      ensures SendButtonDisabled(disabled, old(message)) ==>
        && message == old(message) && isTyping == old(isTyping)
        && typingSignals == old(typingSignals) && sent == old(sent)
      ensures !SendButtonDisabled(disabled, old(message)) ==>
        && sent == old(sent) + [Trim(old(message))]
        && message == "" && !isTyping
        && typingSignals == old(typingSignals) + (if old(isTyping) then [false] else [])
      ensures showEmojiPicker == old(showEmojiPicker)
    {
      var trimmed := Trim(message);
      if trimmed != [] && !disabled {
        sent := sent + [trimmed];
        message := "";
        if isTyping {
          AlternatingExtend(typingSignals, false);
          isTyping := false;
          typingSignals := typingSignals + [false];
        }
        timerArmed := false;
      }
    }

    /** `handleKeyPress`: Enter without Shift sends; any other key, or Shift+Enter, does nothing here. */
    method HandleKeyPress(key: string, shiftKey: bool, disabled: bool)
      requires Valid()
      modifies this
      ensures Valid()
      ensures sent == old(sent) +
        (if key == "Enter" && !shiftKey && !SendButtonDisabled(disabled, old(message))
         then [Trim(old(message))] else [])
      ensures key != "Enter" || shiftKey || SendButtonDisabled(disabled, old(message)) ==>
        message == old(message) && isTyping == old(isTyping) && typingSignals == old(typingSignals)
      ensures key == "Enter" && !shiftKey && !SendButtonDisabled(disabled, old(message)) ==>
        && message == "" && !isTyping
        && typingSignals == old(typingSignals) + (if old(isTyping) then [false] else [])
      ensures showEmojiPicker == old(showEmojiPicker)
    {
      if key == "Enter" && !shiftKey {
        SendMessage(disabled);
      }
    }

    /** `insertEmoji`: the emoji goes at the end of the text and the picker closes. */
    method InsertEmoji(emoji: string)
      requires Valid()
      modifies this`message, this`showEmojiPicker
      ensures Valid()
      ensures message == old(message) + emoji && !showEmojiPicker
    {
      message := message + emoji;
      showEmojiPicker := false;
    }

    method ToggleEmojiPicker()
      requires Valid()
      modifies this`showEmojiPicker
      ensures Valid()
      ensures showEmojiPicker == !old(showEmojiPicker)
    {
      showEmojiPicker := !showEmojiPicker;
    }
  }
}
