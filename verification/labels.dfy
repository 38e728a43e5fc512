/** The categorical labels the tagger writes and the annotation tool offers,
    each with the exact string stored in the metadata record. */
module Labels {

  datatype NoiseLevel = LowNoise | MediumNoise | HighNoise {
    function Name(): string {
      match this
      case LowNoise => "low_noise"
      case MediumNoise => "medium_noise"
      case HighNoise => "high_noise"
    }
  }

  datatype SpeechClarity = ClearSpeech | MuffledSpeech | DistortedSpeech {
    function Name(): string {
      match this
      case ClearSpeech => "clear_speech"
      case MuffledSpeech => "muffled_speech"
      case DistortedSpeech => "distorted_speech"
    }
  }

  /** `Conversational` is offered to annotators; the tagger never produces it. */
  datatype SpeakingStyle = ReadSpeech | SpontaneousSpeech | Conversational {
    function Name(): string {
      match this
      case ReadSpeech => "read_speech"
      case SpontaneousSpeech => "spontaneous_speech"
      case Conversational => "conversational"
    }
  }

  datatype CodeSwitch = NoCodeSwitching | CodeSwitching {
    function Name(): string {
      match this
      case NoCodeSwitching => "no_code_switching"
      case CodeSwitching => "code_switching"
    }
  }

  datatype Vocabulary = GeneralVocab | BusinessVocab | MedicalVocab | TechnicalVocab | MixedVocab {
    function Name(): string {
      match this
      case GeneralVocab => "general_vocab"
      case BusinessVocab => "business_vocab"
      case MedicalVocab => "medical_vocab"
      case TechnicalVocab => "technical_vocab"
      case MixedVocab => "mixed_vocab"
    }
  }

  /** The qualitative trust tag attached to an automated label. */
  datatype Confidence = High | Medium | Low {
    function Name(): string {
      match this
      case High => "high"
      case Medium => "medium"
      case Low => "low"
    }
  }
}
