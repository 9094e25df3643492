/**
 * The Markdown editor wrapper: a text buffer that outlives re-renders, read and written through a
 * handle (`getValue`/`setValue`), kept in step with the editor instance once one is attached.
 */
module EditorComponent {

  /** CodeMirror's `readOnly` option as the wrapper sets it: `"nocursor"` or `false`. */
  datatype ReadOnly = NoCursor | Editable

  function ReadOnlyOption(disabled: bool): (r: ReadOnly)
    ensures r == NoCursor <==> disabled
  {
    if disabled then NoCursor else Editable
  }

  /** The SimpleMDE instance: its displayed text and its `readOnly` option. */
  class EditorInstance {
    var value: string
    var readOnly: ReadOnly

    constructor (value: string)
      ensures this.value == value && readOnly == Editable
    {
      this.value := value;
      readOnly := Editable;
    }
  }

  class Editor {
    /** `valueRef.current`: the text the handle reports. */
    var current: string
    /** `editorInstanceRef.current`: the attached instance, if any. */
    var instance: EditorInstance?

    constructor (initialValue: string)
      ensures current == initialValue && instance == null
    {
      current := initialValue;
      instance := null;
    }

    /** The instance reports an edit; its own text already shows it. */
    method OnChange(value: string)
      modifies this`current
      ensures current == value
    {
      current := value;
    }

    method GetValue() returns (value: string)
      ensures value == current
    {
      value := current;
    }

    /** Replaces the text and shows it in the attached instance, if there is one. */
    method SetValue(newValue: string)
      modifies this`current, instance
      ensures current == newValue
      ensures instance != null ==> instance.value == newValue && instance.readOnly == old(instance.readOnly)
    {
      current := newValue;
      if instance != null {
        instance.value := newValue;
      }
    }

    /** Attaching an instance loads the current text into it. */
    method HandleEditorInstance(inst: EditorInstance)
      modifies this`instance, inst`value
      ensures instance == inst && inst.value == current
    {
      instance := inst;
      inst.value := current;
    }

    /** The effect that runs when `disabled` changes. */
    method SyncReadOnly(disabled: bool)
      modifies instance
      ensures instance != null ==> instance.readOnly == ReadOnlyOption(disabled) && instance.value == old(instance.value)
    {
      if instance != null {
        instance.readOnly := ReadOnlyOption(disabled);
      }
    }
  }
}
